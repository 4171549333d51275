# Verified model of the rapid gossip sync server

The server stores Lightning gossip, computes what changed since a given time, writes it as a compact blob and
links client timestamps to blobs. This project models that pipeline and proves what it is for: a client that
follows its link ends at the server's latest state.

The stages are modelled in the order in which they run:

- `Database`: the tables, the network graph, and each SQL query as a predicate on its answer. Wherever a query
  leaves an order or a choice open (ties in DISTINCT ON or ORDER BY), the predicate admits every answer.
- `Lookup`, `AnnouncementLookup`, `ReminderRuns`, `NodeLookup`: the row loops that fill the delta sets, proved
  against declarative descriptions over the tables, and what the window query and the node strategy mean.
- `Histograms`, `Serialization`: the choice between full, incremental, reminder and nothing, the defaults, and
  the node records.
- `ByteCodec`, `UpdateCodec`, `NodeCodec`, `Blob`, `BlobWriter`, `Digits`, `WireFormat`: the wire format. Each writer
  has a reader, the imperative writer of the whole blob is proved to write what the reader reads back, and the layout
  is also stated in literal bytes, without any reader.
- `Client`, `Pipeline`, `Convergence`, `ChannelGuarantees`, `UpdateChoices`, `NodeDelivery`: what applying a blob does
  to a client, the guarantees of a whole blob, and when exactly each kind of update is sent.
- `Shortfalls`, `RunShortfalls`: inputs of the whole pipeline, and whole runs, for which an expected property fails,
  and exactly when it holds.
- `Snapshots`, `Rounding`: the ladder of scopes and the links.
- `Server`, `Runs`: `calculate_delta` end to end, and runs in which gossip arrives, generations are published and a
  client keeps fetching what is published.
- `QueryAnswers`, `Generations`: every query has an answer, every table a computation and a generation, and the loop
  of `generate_snapshots` makes one.
- `Persister`, `Migration`: the insert protocol and the schema upgrade as transition systems over their steps.

## Main results

- `Runs.EveryRunConverges`: from an empty client, through any interleaving of arriving gossip, publications and
  fetches, after each fetch of the linked bytes the client has a channel, both directions, exactly as the newest rows
  say that the served snapshot saw, and no older than anything seen before the generation's reference time. This is
  stated channel by channel: it needs that the graph keeps the channel, and nothing of any other channel.
  `Runs.EveryRunResolves`: the link the client needs exists exactly while its timestamp is before the reference.
- `Blob.BlobRoundTrip` with `BlobWriter.SerializeDelta`: nothing is lost between serialization and the client.
- `NodeDelivery.LinkedNodeConverges`, `NodeLookup.NodeMutationsNeverDowngraded` and, for tables in any order,
  `NodeLookup.MutationSentExactly` for node details.
- `UpdateChoices`: for each direction of each retained channel, full, incremental or reminder exactly when the tables
  call for it, and what each carries. `NodeLookup.NodeStrategyExactly`: the same for every node.
- `Runs.ServedExactly`: from which last sync the snapshot was computed that a client is served.
- `ChannelGuarantees`: usability of every update, exact conditions for announcements and whole delivery, and the
  full sync.
- `Persister.RunKeepsInv`, `Persister.StoredAsReceived`, `Persister.NodesConserved`,
  `Persister.AllReceivedKeysStored`, `Migration.MigrationIsSafe`,
  `Migration.PermitsAreABarrier`.

## Assumptions

They are explicit in the `requires` clauses and step predicates.

- `seen` values, clocks and timestamps are whole seconds that fit 32 bits. The two clock readings of a computation
  are parameters, and serialization does not happen before the reference time.
- `channel_flags` has only its two defined bits set; public keys have 33 bytes, the first being 2 or 3.
- Of the channel or node that a lemma is about, the orders of `seen` and `timestamp` agree (`OrdersAgree`,
  `NodeOrdersAgree`), where the lemma says so. `NodeLookup.DisorderCanDowngrade` shows that node strategies need it,
  and `NodeLookup.MutationSentExactly` says exactly what they need.
- Nothing is assumed about ties. When a node has several announcements in the newest second before the sync, the query
  leaves open which of them it returns, and the node results say exactly what follows for a client (`ReferenceServes`,
  `Reaches`).
- Of a channel in a run: the graphs of the snapshots that the client fetches carry it, each direction enabled as in
  its newest row (`Carried`), once the tables have all of it; nothing is sent about a channel that the graph has lost
  (`ChannelGuarantees.PrunedIsSilent`). And its announcement is stored no later than the first update of the direction
  that completes it (`AnnouncedInTime`): `RunShortfalls.LateAnnouncementIsMissed` is a run that lacks only this and in
  which the channel is missed, and `RunShortfalls.LackingFetchExactly` states exactly when a client that lacks a channel
  gets it.
- Of the tables in a run: rows are only added, and not seen before the time they are added; none is seen before the
  end of the first interval of 2022.
- All queries of one computation see the same tables, although the source uses no transaction; the snapshots of one
  generation may see different ones. The network graph does not change during one computation. Hash maps and sets are
  walked in an arbitrary but fixed order, passed in as `HashOrder`.

## Where the code does less than its comments suggest

- A node without details before the last sync is given the full strategy and then dropped before serialization, so
  nothing is stated about its delivery.
- The link for the reference timestamp exists in version 1 only.
- Full updates that repeat the last update before the sync are not counted for the defaults, so other defaults can be
  cheaper (`Shortfalls.RepeatedFullsCanCostMore`, `Serialization.SentDefaultsOptimalExactly`).
- An announcement stored after the first updates of both directions may not be sent to clients that lack the
  channel (`RunShortfalls.LateAnnouncementIsMissed`, `RunShortfalls.LackingFetchExactly`).
- A payload without news, such as one of reminders only, reports the time 0, and its client then asks for everything
  again (`RunShortfalls.RemindersReportNoTime`, `RunShortfalls.TimestampCanGoBack`, `Runs.TimestampAdvancesExactly`).
- An insert that fails or times out never returns its permit. After sixteen of them the persister stops for good
  (`Persister.PersisterCanStop`, `Persister.StoppedForGood`).
- A backfill worker that panics before its write returns its permit, so holding all permits does not by itself mean
  that all amounts are written; the database then refuses the constraint (`Migration.PermitsAreABarrier`,
  `Migration.BarrierOpensAfterPanic`).
- An upgrade from schema 1 performs its transactional steps and then panics, because the check uses the schema read
  first (`Migration.UpgradeFromOnePanics`, `Migration.CheckPanicsExactly`).

## Model

| member | source | states |
|---|---|---|
| `GossipTypes.FlagBits` | src/persistence.rs:233-234 | of the two defined channel flags the lower is the direction and the higher disables it |
| `ByteCodec.ReadWrittenBigSize` | src/serialization.rs:274-279 | every 64-bit number survives BigSize writing and reading, whatever follows it |
| `ByteCodec.BigSizeCanonical` | src/serialization.rs:274-279 | whatever the reader accepts is byte for byte what the writer writes for the number read |
| `Digits.BigEndianDigits` | src/serialization.rs:327-350 | integers are written in base 256, most significant digit first |
| `WireFormat.BigSizeVectors` | src/serialization.rs:274-279 | the boundary test vectors of BOLT #1, byte for byte |
| `UpdateCodec.MaskedRoundTrip` | src/serialization.rs:296-350 | reading the written values back over a base gives the base with exactly the masked values replaced |
| `UpdateCodec.UpdateRoundTrip` | src/serialization.rs:285-363 | a client reads back scid, flags, kind and carried values of any update, defaults filled in for a full one, leaving the following bytes |
| `UpdateCodec.SerializeStrippedChannelUpdate` | src/serialization.rs:285-363 | the writer that ORs flag bits while appending values writes the record that `UpdateRoundTrip` inverts |
| `WireFormat.FlagByteBits` | src/serialization.rs:296-355 | which bit of the flag byte announces each value and an incremental update |
| `WireFormat.MaskedLayout` | src/serialization.rs:296-350 | the announced values follow in field order, without gaps, each at its width |
| `UpdateCodec.AnnouncementRoundTrip` | src/serialization.rs:266-283 | a client reads back scid, features and both node ids from index form |
| `Lookup.CollectReferences` | src/lookup.rs:350-380 | the reference loop gives each direction its reference row and changes nothing else |
| `Lookup.CollectIntermediates` | src/lookup.rs:398-468 | the single pass with two direction flags gives every direction its first row and all mutations, for any interleaving of channels and directions |
| `Lookup.FirstIsLatest` | src/lookup.rs:389-394 | in the query's order the first row of a direction is the one with the highest timestamp since the sync |
| `Lookup.MutationsBetweenMeaning` | src/lookup.rs:447-467 | comparing two updates marks exactly the properties in which they differ, the flag byte and each of five values |
| `Lookup.MutationsDescribe` | src/lookup.rs:447-467 | a property is marked exactly when some row since the sync differs from the reference in it |
| `Lookup.FetchChannelUpdates` | src/lookup.rs:326-470 | both loops together give each direction its reference, latest row and mutations as the tables define them |
| `AnnouncementLookup.ReminderSchedule` | src/lookup.rs:106-122 | reminders are included in the first hour of every five days, or for spans above fifty hours |
| `AnnouncementLookup.FirstBidirectionalMeaning` | src/lookup.rs:187-199 | the nested query selects a channel exactly when one of its directions has rows, all of them since the sync |
| `AnnouncementLookup.CollectAnnouncements` | src/lookup.rs:151-171 | exactly the graph's channels with a stored announcement get it |
| `AnnouncementLookup.CollectFirstUpdates` | src/lookup.rs:185-215 | the newer of the two oldest `seen` values is set exactly for channels completed since the sync |
| `AnnouncementLookup.CollectReminders` | src/lookup.rs:226-322 | reminder and both flag bytes are set exactly for channels with an old enough answer, flags from the graph |
| `AnnouncementLookup.FetchChannelAnnouncements` | src/lookup.rs:128-324 | announcement, completion time, reminder and reminder flags of every channel as the tables and the graph define them |
| `AnnouncementLookup.FilterDeltaSet` | src/lookup.rs:652-686 | keeps exactly the announced channels with a reminder due or a row since the sync, unchanged |
| `AnnouncementLookup.CalculateChannelDelta` | src/lib.rs:214-222 | all channel stages leave exactly the retained channels, each with its declarative delta |
| `ReminderRuns.PickedIsRunStart` | src/lookup.rs:253-275 | the window query picks the start of the newest run inside the window whose rows agree in the disable bit and in all five values |
| `ReminderRuns.ReminderMeaning` | src/lookup.rs:219-322 | a reminder is due exactly when reminders are on and in some direction that run, within fourteen days, began more than six days ago |
| `NodeLookup.CollectNodeReferences` | src/lookup.rs:476-537 | each announced node of the graph gets the graph's details and the newest stored details before the sync |
| `NodeLookup.ChooseStrategies` | src/lookup.rs:577-646 | the loop over all rows gives each node the strategy of its own rows against its own reference |
| `NodeLookup.FetchNodeUpdates` | src/lookup.rs:472-650 | both node stages together, given the answers of their queries |
| `NodeLookup.ReplayProgresses` | src/lookup.rs:583-646 | invariant of the loop over one node's rows: a mutation is replaced by a reminder only when the newest mutation is older than the threshold |
| `NodeLookup.UnchangedExactly` | src/lookup.rs:617-635 | a node unchanged since the sync gets a reminder iff reminders are on and its first differing row reached the threshold, otherwise nothing |
| `NodeLookup.NodeStrategyExactly` | src/lookup.rs:577-646 | the strategy of every node after serialization, over the table: nothing, full, exactly the changed properties, or a reminder |
| `NodeLookup.NodeMutationsNeverDowngraded` | src/lookup.rs:577-646 | after serialization, changed addresses or features since the sync are sent, in full or as exactly those mutations; otherwise nothing, a reminder or full |
| `NodeLookup.DowngradedExactly` | src/lookup.rs:577-646 | rows in any order, with a change since the sync: the loop ends with a reminder iff the last row is from before the sync and the first differing one reached the threshold; otherwise every change is sent |
| `NodeLookup.MutationSentExactly` | src/lookup.rs:577-646 | for any table: changed properties are sent after serialization iff the reference is old enough for a full record or the replay is not overwritten so |
| `NodeLookup.DisorderCanDowngrade` | src/lookup.rs:624-635 | a table, and answers to both queries over it, for which changed features end as a reminder |
| `NodeLookup.NodeReachesExactly` | src/serialization.rs:231-245 | whatever a client holds, it ends at the graph's details iff the node is sent in full or each property was changed since the sync or is held already |
| `NodeLookup.NodeConvergence` | src/serialization.rs:231-245 | a client holding the reference or any details since the sync ends at the graph's details, iff something was announced since, the node is sent in full, or the picked reference says what the graph says |
| `Histograms.FindMostCommonHistogramEntryWithDefault` | src/serialization.rs:365-375 | returns a value no other occurs more often than, the default only when there is none |
| `Histograms.FindLeadingHistogramEntries` | src/serialization.rs:377-381 | distinct repeated entries by descending count, none more common left out unless the limit is reached |
| `Histograms.RecordFullUpdate` | src/serialization.rs:144-150 | after counting one more update the five histograms count all of them |
| `Histograms.DefaultsAreOptimal` | src/serialization.rs:221-227 | no choice of five defaults makes the counted full updates take fewer bytes |
| `Histograms.SelectDefaults` | src/serialization.rs:221-227 | each default is a most common value of its field, and zero when nothing is counted |
| `Serialization.SerializeKeys` | src/serialization.rs:155-219 | the unwrap and the SCID assertion hold, and announcements, updates, newest seen and counted updates over all channels in key order |
| `Serialization.SerializeNodes` | src/serialization.rs:231-261 | exactly the nodes with a reference and a strategy remain, with final strategies; default features are the most common among those sent |
| `Serialization.LeadingFeaturesMeaning` | src/serialization.rs:247-261 | default features are distinct, sent by at least two nodes, by descending number of senders, and one sent by two or more is left out only for six that at least as many send |
| `Serialization.SerializeDeltaSet` | src/serialization.rs:125-264 | the whole set as described from the delta sets, with optimal defaults |
| `Serialization.SeenIsUpperBound` | src/serialization.rs:168-183 | the reported time is not before any announcement or latest update that is sent |
| `Serialization.EveryFullIsCounted` | src/serialization.rs:187-210 | the counted updates are all full updates sent, iff no newly included channel repeats an update from before the sync |
| `Serialization.SentDefaultsAreOptimal` | src/serialization.rs:221-229 | then no other defaults make the blob's full updates shorter |
| `Serialization.SentDefaultsOptimalExactly` | src/serialization.rs:207-229 | for any delta set: whichever modes are chosen, no other defaults make the blob's full updates shorter, iff adding the repeated updates keeps every mode of the counted ones a mode |
| `Shortfalls.RepeatedFullsCanCostMore` | src/serialization.rs:207-210 | a computation over two newly included channels whose uncounted repeats make other defaults cheaper for what is sent |
| `NodeCodec.NodeIdTable.GetNodeIdIndex` | src/lib.rs:230-244 | set, map and list stay consistent, the list grows only by unknown ids, and the index names the id |
| `NodeCodec.IndicesStayValid` | src/lib.rs:230-258 | over any sequence of requests the list has no duplicates and earlier indices stay valid |
| `NodeCodec.AllAddressesDelivered` | src/lib.rs:350-366 | the sent addresses are the whole set iff there are at most 255, of at most 255 bytes |
| `NodeCodec.SendableExactly` | src/lib.rs:350-366 | sent are the first 255 addresses, in order, of those of at most 255 bytes |
| `NodeCodec.SerializeAddresses` | src/lib.rs:351-366 | the loop writes the count and bytes of exactly the sendable addresses |
| `NodeCodec.SerializeNode` | src/lib.rs:328-406 | ORing bits into the first byte while appending gives the record that `NodeRoundTrip` inverts |
| `NodeCodec.NodeRoundTrip` | src/lib.rs:332-404 | a client reads back id, addresses, features, by default index or in full, and reminder bit |
| `NodeCodec.NodeFirstByteBits` | src/lib.rs:332-404 | which bits of the first byte hold parity, addresses, feature code and reminder |
| `Blob.BodyRoundTrip` | src/lib.rs:246-290 | announcements and updates of any sorted body come back, and exactly its bytes are consumed |
| `Blob.ListedIdsProperties` | src/lib.rs:306-322 | the node list has no duplicates, holds every node referred to, and the version 1 list is a prefix of the version 2 list |
| `Blob.ListedExactly` | src/lib.rs:230-322 | listed are exactly the nodes of announced channels and, in version 2, those whose details are sent |
| `Blob.BodyIsVersionIndependent` | src/lib.rs:246-290 | announcement and update bytes are the same in both versions |
| `Blob.BlobRoundTrip` | src/lib.rs:226-409 | the client's reader recovers everything in a blob of either version and consumes every byte |
| `WireFormat.HeaderLayout` | src/lib.rs:295-304 | every blob begins with the bytes of LDK, the version, the chain hash and the newest seen time rounded down |
| `WireFormat.ExampleBlob` | src/lib.rs:226-409 | all bytes, in both versions, of a blob with each kind of update, default features and node details |
| `BlobWriter.SerializeAnnouncements` | src/lib.rs:246-258 | indices written on the fly are those in the finished list |
| `BlobWriter.SerializeDelta` | src/lib.rs:226-426 | the imperative writer produces that blob, and its counters count what the reader finds in it |
| `BlobWriter.SerializeEmptyBlob` | src/lib.rs:183-203 | the no-op blob reads as no nodes, announcements or updates and the rounded timestamp |
| `Client.DirectionConverges` | src/serialization.rs:175-215 | with rows since the sync, a client holding the reference or any such row ends at the one with the highest timestamp, whatever was chosen |
| `Client.QuietDirectionKeeps` | src/serialization.rs:207-213 | with none, it keeps or gets the newest row |
| `Pipeline.DeltaIsSerializable` | src/serialization.rs:155-179 | the announcement unwrap and the SCID assertion cannot fail on a filtered delta set |
| `Pipeline.PipelineIsOrdered` | src/serialization.rs:271-290 | announcements strictly ascend, updates strictly ascend by channel and direction; both unsorted-scid panics are unreachable |
| `Pipeline.EffectOfUpdates` | src/lib.rs:276-290 | the updates of a blob change each direction by its own choice and nothing else |
| `Convergence.SnapshotConverges` | src/lib.rs:205-224 | for each channel in the graph: a client covering it for a time not before the snapshot's last sync ends with its newest rows, whatever the state of other channels |
| `ChannelGuarantees.RetainedExactly` | src/lookup.rs:652-680 | in the delta iff in the graph, announced, and with a row since the sync or a reminder due |
| `ChannelGuarantees.PrunedIsSilent` | src/lib.rs:208-222 | nothing is sent about a channel that the graph has lost |
| `ChannelGuarantees.AnnouncedExactly` | src/serialization.rs:159-170 | announcement sent iff retained and announced or completed since the sync |
| `ChannelGuarantees.EmittedUpdatesAreUsable` | src/serialization.rs:155-219 | each update's announcement is in the blob, or it and an update per direction with rows were seen before the sync |
| `ChannelGuarantees.AnnouncedIsNeverIncremental` | src/serialization.rs:185-196 | no channel whose announcement is sent gets an incremental update |
| `ChannelGuarantees.IncrementalNeedsFreshReference` | src/serialization.rs:185-196 | incremental updates only against references younger than six days, with something changed but not all five values |
| `ChannelGuarantees.ReminderWithholdsNothing` | src/serialization.rs:193-213 | a reminder is sent only when due, with the graph's flags, for a channel complete before the sync and a direction in which no row since the sync differs from the reference |
| `UpdateChoices.IncrementalExactly` | src/serialization.rs:185-196 | an incremental update is sent iff the channel is not new, the direction has a row since the sync, its reference is younger than six days, and something changed but not all five values |
| `UpdateChoices.IncrementalCarries` | src/serialization.rs:193-196 | it carries the row with the highest timestamp, and marks exactly what some row since the sync changed against the reference |
| `UpdateChoices.ReminderExactly` | src/serialization.rs:197-213 | a reminder is sent iff one is due and the direction has no row since the sync, or only repetitions of a fresh reference; its flags are the graph's |
| `UpdateChoices.FullExactly` | src/serialization.rs:185-213 | a full update is sent iff there is a row since the sync and the channel is new or the reference missing, old or changed in all five values, or a completed channel has only an older row |
| `UpdateChoices.FullCarries` | src/serialization.rs:185-213 | it carries the row with the highest timestamp since the sync, or the reference when there is none |
| `ChannelGuarantees.NewlyIncludedIsFull` | src/serialization.rs:161-215 | a channel completed since the sync gets its announcement and one full update per direction with rows, nothing else |
| `ChannelGuarantees.DeliveredWholeExactly` | src/serialization.rs:159-215 | announcement and a full update for each direction with rows are sent iff a direction is new, or the announcement is and every direction has a new row |
| `ChannelGuarantees.FullSync` | src/snapshot.rs:110-114 | from zero: each retained channel announced, exactly the newest row of each direction in full, nothing else |
| `NodeDelivery.NodeConvergesThroughBytes` | src/lib.rs:328-407 | written and read version 2 bytes do to a client's details what the final strategy means, and make them the graph's iff each property was sent or held |
| `NodeDelivery.RecordsCarryStrategies` | src/lib.rs:328-406 | the record read for a node carries addresses, features and the reminder bit exactly as its strategy says |
| `NodeDelivery.LinkedNodeConverges` | src/snapshot.rs:161-205 | the same for a client that held the details as of any linked timestamp, which always ends at the graph's when the reference is unambiguous |
| `Shortfalls.LackingClientExactly` | src/serialization.rs:159-215 | a client that lacks a channel is in sync on it after a blob iff a direction is new, or the announcement is and every direction has a new row |
| `RunShortfalls.LackingFetchExactly` | src/snapshot.rs:161-205 | the same for any fetch of any published generation |
| `RunShortfalls.LateAnnouncementIsMissed` | src/serialization.rs:159-170 | for every channel and interval boundary a run from an empty client: both first updates just before it, the announcement after it, and two fetches that leave the channel out of sync |
| `Snapshots.SnapshotScopes` | src/snapshot.rs:28-42 | the doubling loop terminates and builds the ladder |
| `Snapshots.LadderAscends` | src/snapshot.rs:30-42 | the ladder ascends strictly, doubles until three weeks are reached, and ends unlimited |
| `Snapshots.ProductionLadder` | src/snapshot.rs:28-42 | the ten scopes of the default interval, in seconds |
| `Snapshots.FirstFitIsTight` | src/snapshot.rs:184-187 | above the interval and up to the largest limited scope, the scope is under twice the age |
| `Snapshots.GenerateLinks` | src/snapshot.rs:138-206 | every step gets its link in both versions under a new name; version 1 alone has the dummy |
| `Snapshots.LinkedTimestamps` | src/snapshot.rs:154-201 | with production settings, names are 0 and every step strictly between the earliest time and the reference |
| `Snapshots.LinkIsSound` | src/snapshot.rs:161-205 | lookups succeed and the linked snapshot's last sync is not after the client's timestamp |
| `Snapshots.LinkIsTight` | src/snapshot.rs:184-204 | the linked scope is under twice the client's age in the limited range |
| `Snapshots.LinkExactly` | src/snapshot.rs:161-205 | 0 links to the unlimited snapshot, any other name to the one of the least scope that reaches it |
| `Rounding.RoundDown` | src/snapshot.rs:222-225 | the result is the greatest multiple not above the number |
| `Server.CalculateDelta` | src/lib.rs:205-224 | all stages in order produce a computation of which the convergence results speak, with the graph's details for every node sent |
| `Server.ServeSnapshot` | src/snapshot.rs:121-135 | the bytes written for a computation read back completely and bring a covering client in sync on every channel the graph carries |
| `QueryAnswers.AnswersExist` | src/lookup.rs:128-560 | over every valid table all seven queries have answers |
| `Generations.ComputationExists` | src/lib.rs:205-224 | every valid table has a computation, for every graph and time |
| `Generations.GenerationExists` | src/snapshot.rs:65-220 | every table of the size of the counters has a generation |
| `Generations.GenerateSnapshots` | src/snapshot.rs:65-206 | each snapshot is computed from its own tables at the reference time, from the last sync its scope before it or 0, and with the links they make what the runs call a generation |
| `Runs.ReportedTimeExactly` | src/serialization.rs:168-183 | the reported time reaches any time since the sync iff some channel sent has an announcement or latest update seen since then; otherwise it is 0 or not before the sync |
| `Runs.ArriveKeepsTracks` | src/lookup.rs:187-212 | arriving gossip keeps the client's coverage of its timestamp |
| `Runs.FetchConverges` | src/snapshot.rs:161-205 | fetching the linked bytes, however long after they were computed, brings the client in sync with the tables they were computed from |
| `Runs.FetchKeepsTracks` | src/lib.rs:300-304 | and leaves it a timestamp it can go on from in the present tables |
| `Runs.FetchIsPossible` | src/lib.rs:226-426 | what a generation computes can always be written and fetched |
| `Runs.GenerationSyncs` | src/snapshot.rs:110-114 | in every generation the snapshot of a scope reaches back exactly that scope, or to 0 |
| `Runs.ServedExactly` | src/snapshot.rs:110-205 | a client is served the snapshot of the least scope reaching its timestamp, which in the limited range reaches back less than twice as far |
| `Runs.TimestampAdvancesExactly` | src/lib.rs:300-304 | a fetch does not take the client's timestamp back iff the snapshot has news since that timestamp |
| `RunShortfalls.TimestampCanGoBack` | src/lib.rs:300-304 | for every interval boundary a run in which a fetch takes the client's timestamp from there to 0 |
| `RunShortfalls.RemindersReportNoTime` | src/serialization.rs:193-213 | a computation that sends reminders only and reports the time 0 |
| `Runs.NoOpKeepsClient` | src/snapshot.rs:137-152 | the dummy blob for the reference leaves the client's graph and timestamp alone |
| `Runs.EveryRunConverges` | src/snapshot.rs:65-220 | in every run each fetch leaves the client in sync on every channel that the fetched graphs carry, with the served snapshot's tables, so no older than anything seen before the reference |
| `Runs.EveryRunResolves` | src/snapshot.rs:138-205 | in every run the client's link exists iff its timestamp is before the published reference, and its timestamp is not after the current interval |
| `Persister.StoreKeepsTables` | src/persistence.rs:134-304 | an insert leaves valid tables: a channel message without conflict is stored as it is, seen now, and nothing else changes; one with a conflict changes no row |
| `Persister.RunKeepsInv` | src/persistence.rs:95-306 | under every interleaving, failures included, each of 16 permits is free, held or leaked, at most 16 connections live, none is shared, tables stay valid and only grow |
| `Persister.StoredAsReceived` | src/persistence.rs:95-306 | in every run, with any failures, every stored update, announcement and node announcement is unchanged one that was stored before or received |
| `Persister.NodesConserved` | src/persistence.rs:107-306 | a node announcement is stored as often as it is received, but for copies on their way and those whose insert failed |
| `Persister.AllReceivedKeysStored` | src/persistence.rs:107-306 | once all is done, stored update keys and announced channels are the initial and all received ones, whatever the order |
| `Persister.WaitingMessageProgresses` | src/persistence.rs:120-131 | with a message waiting, the protocol can go on iff a permit has not leaked |
| `Persister.StoppedForGood` | src/persistence.rs:120-131 | once all permits have leaked, no further run stores anything |
| `Persister.PersisterCanStop` | src/persistence.rs:228-304 | sixteen failing inserts from the start lead there |
| `Migration.MigrationIsSafe` | src/config.rs:178-363 | through any crashes and failures, steps commit consecutively and once; the constraint and schema 15 only when every row has an amount |
| `Migration.PermitsAreABarrier` | src/config.rs:331-351 | in every reachable state in which all permits are held and the stream is empty, every amount is written and the constraint accepted iff no worker has panicked before its write |
| `Migration.BarrierOpensAfterPanic` | src/config.rs:339-349 | a run in which a panicked worker opens the barrier early and the constraint is refused |
| `Migration.UpgradeFromOnePanics` | src/config.rs:178-363 | from schema 1 the steps up to 14 are committed, and then the check panics |
| `Migration.CheckPanicsExactly` | src/config.rs:353-355 | over all runs and crashes the schema check can panic iff the database began at schema 1 |

## Left out

- Postgres connections, timeouts, query plans and index definitions: only the meaning of queries, unique keys and
  conflict clauses is modelled.
- Sub-second `seen` values and the cast to BIGINT; clock values beyond 32 bits.
- The internals of the network graph, the peer manager and message parsing; stored blobs are parsed records.
- Downloading, tracking, verification of funding outputs, logging, hex and environment parsing.
- Directory removal and renaming in snapshot generation: links are maps from names to scopes.
- Encodings inside feature vectors and socket addresses: both are length-delimited byte strings.
- Pruning by the client: it keeps what it has. A channel that the graph loses is not followed further, because the
  code does not announce it again when it returns.
- `BlobWriter.SerializeDelta`: counters are unbounded, and the count of duplicate node ids is not modelled, since it
  is only logged.
- `Persister.AllReceivedKeysStored`: states the keys; which of two conflicting messages a row holds depends on the
  order of completion.
- `Migration.MigrationIsSafe`: a transactional step is one atomic commit; its column edits are not modelled.
- `NodeLookup.NodeConvergence`: only nodes with details from before the sync, because others are not sent.
- `Runs.EveryRunConverges`: speaks of channels; node details are covered blob by blob.
