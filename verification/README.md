# A verified model of the WebSocket, gRPC and HTTP gateway

The project models five parts of the gateway and proves what they promise.

* **WebSocket messages.** `Utf8`, `WebsocketMessage`, `MessageRuns` and `Relay` model the streaming
  validator, the bounded reassembler and the two client-to-backend pumps. `Utf8` writes out the
  grammar of section 4 of RFC 3629 and, separately, the library scan with its `valid_up_to` and
  `error_len`, and proves the grammar to be the shortest encodings of the Unicode scalar values.
  The main results: however a message is cut into frames, the validator agrees with
  "concatenate, then validate once"; the reassembler gives back exactly the messages that were cut;
  the relay forwards those messages unchanged up to the first Close; the TCP bridge writes the same bytes.
* **The IP block engine.** `ViolationWindows` is the fixed-window counting, `IpBlocking` the
  operations of the runtime, `IpTransaction` the batched transaction, `IpDrain` the shutdown drain,
  `BlockFile` the file protocol with a file system that can lose power, `IpBlockingRuns` the state
  machine of all of them with crashes and reloads, `IpBlockingTheorems` what its invariant means,
  `IpCrossings` exactly when a violation is counted and when it blocks,
  `IpDurability` what a loss of power can do along a run, `SplitRecording` a finer machine in which
  recording is not one step, `ExampleRuns` whole runs that show where a stronger promise would be wrong.
* **The HTTP/1 upstream pool.** `HttpPool` models the pool and the body wrappers as classes,
  `PoolRuns` the interleaving of request tasks, waiters, drivers and the reaper, `PoolTheorems`
  ownership and what every run keeps, `PoolReuse` which connection a run hands out again and which it drops.
* **Paths and route tables.** `HttpPath` is the path validator and percent-decoding, `HttpRoutes` the
  HTTP table, its prefix lookup and target rewriting, `RouteTables` the exact tables of WebSocket and
  gRPC routes, `Config` their disjointness.
* **CIDR membership.** `Network` compares mask arithmetic with intervals of addresses.

An operation that updates state is a method, proved equal to a function on values; the lemmas are
about those functions. Monotonic time counts nanoseconds. Integer widths, saturation and truncation
are written out where the code depends on them. Code that awaits (the manager, `acquire_http1`,
`acquire_capacity`, `connect`) is a state machine whose steps are the stretches between two awaits, so
that every interleaving of tasks is a run. The synchronous code inside a stretch is a method whose
contract is the function that the step applies.

`Notify` is taken as its library documents it: one stored permit, a notification wakes one registered
waiter (any one here; the library wakes the first), and a waiter dropped with a notification it has
not used passes it on. A semaphore gives a permit to some task whenever one is free.

## What turned out different from what one might expect

* The state file stores whole wall-clock seconds. A reload on clocks that kept step moves a deadline
  by less than a second, and drops a live block exactly when its deadline falls in the wall-clock second
  of the reload (`BlockFile.DroppedExactly`; `ExampleRuns.ReloadDropsBlock` is such a run).
* A row more than a day ahead of the wall clock is cut to a day when it is loaded, and memory then has
  less than the row says until it has been written back. A reload gives a client longer exactly when
  its row ends later than its block and a day from the reload does too
  (`IpBlockingTheorems.ReloadExtendsExactly`); `IpBlockingTheorems.CutRowSlides` is such a case.
* When the directory sync after a rename fails, the new file is current but not settled, and several
  such files may follow each other. If only the process restarts, it trusts the current one, and a power
  loss can bring back another. That leaves a whole file that loads, or none, but only while nothing was
  ever settled, and then the next start creates it empty (`IpDurability.PowerLossLeavesWholeFile`; the
  first creation itself can end like this, `ExampleRuns.FirstFileCanVanish`). Which contents are in doubt
  is settled when the process starts and ends with its first directory sync
  (`IpDurability.DoubtsExactly`); until then exactly those clients can be lost for which one of them has
  no row as long as their block (`IpDurability.LosesExactly`). `ExampleRuns.LossHappens` is such a run.
* A transaction that succeeds with live work consumes some of it, except for a forced compaction of a
  table full of live blocks; `IpTransaction.SuccessConsumes` gives the exact condition, and
  `ExampleRuns.CompactionConsumesNothing` is a run: the manager's first transaction is a forced one. The
  shutdown drain does not force.
* Counting is complete within a factor of two, and no better, for every rule and threshold
  (`ViolationWindows.FactorOfTwoIsTight`; `ExampleRuns.StraddlesWindows` is the run).
* A client whose lapsed entry still waits for the manager to expire it is counted but cannot be entered
  again, so a violation that crosses the threshold then does not block
  (`IpCrossings.CrossingEnters` has the exact condition, `ExampleRuns.LapsedEntryWaits` is a run).
* A well-formed path has no other well-formed spelling exactly when its decoded bytes are all unreserved
  bytes, separators, spaces and hashes (`HttpPath.SpellingIsUnique`). Every other byte can be written in
  two ways, as `!` in `/!` and `/%21` (`HttpPath.SubDelimsAlias`). With the length limit, a path that has
  no room for one more encoding and spares none is unique too (`HttpPath.AcceptedSpellingIsUnique`).
* A replaced prefix can make a path longer than the validator allows; nothing else about it can fail
  (`HttpRoutes.RewrittenLength` gives the exact condition, `HttpRoutes.RewriteCanOverflow` a route and a
  path that pass the limit).
* The branch for a batch entry that is already durably blocked (src/security/ip_blocking.rs:376) is
  not reached when recording is one step (`IpBlockingRuns.ConsumedIsActivated`). It is needed when a
  request reads the snapshots before a publication and queues its client after it
  (`SplitRecording.LateEntryHappens`). That makes a gap possible exactly when some transaction publishes
  new blocks more than 86100 and less than 86400 seconds after it built them: not earlier, because they
  still outlast the temporary block, and not later, because they have ended and the late entry gets a
  new one (`SplitRecording.GapExactly`).
* A violation takes its time before it gets the lock under which it is counted. Counts stand for
  violations within less than the window plus the longest such wait (`SplitRecording.PendingIsEarned`);
  with recording as one step, within less than the window (`IpBlockingTheorems.PendingIsEarned`).
* The clock overflow guard of loading and three error arms of `collect` cannot be reached: the methods
  carry them, and their contracts (`BlockFile.RestoreRow`, `MessageRuns.BoundedMessages.Collect`)
  leave no room for them.
* A waiter that took the stored permit of `Notify` and then goes away is assumed to pass nothing on, and
  the pool needs no more: `PoolRuns.WakeupKept` counts only notifications delivered to a registered
  waiter.

## Model

| member | source | states |
|---|---|---|
| Utf8.FromUtf8Contract | src/gateway/websocket_message.rs:59-91 | the library contract the validator relies on: accepted exactly for valid text; otherwise the valid prefix is maximal and `error_len` is absent exactly when the rest is a proper prefix of one legal code point |
| Utf8.CharsAreEncodings | src/gateway/websocket_message.rs:59-91 | a byte string is one legal code point exactly when it is the shortest form, with six bits in each byte after the first, of a number up to 0x10FFFF that is no surrogate (section 3 of RFC 3629) |
| Utf8.EncodingsApart | src/gateway/websocket_message.rs:59-91 | no encoding of a scalar value is a prefix of another's |
| Utf8.ValidIsEncodedText | src/gateway/websocket_message.rs:59-91 | bytes are valid exactly when they are the encodings of some scalar values, one after the other |
| Utf8.TextIsUnique | src/gateway/websocket_message.rs:59-91 | and of one such text only |
| Utf8.VerdictMeans | src/gateway/websocket_message.rs:59-91 | the scan's verdict decides both validity and whether the bytes can still be extended to valid text |
| Utf8.RemainderUnique | src/gateway/websocket_message.rs:59-91 | the unfinished suffix of extendable text is the only split into valid text and a proper prefix of a code point |
| WebsocketMessage.MessageSequence.Validate | src/gateway/websocket_message.rs:20-58 | agrees with appending the fragment and validating the whole message once; between frames the tail is exactly the unfinished suffix; sequencing errors leave the state unchanged |
| WebsocketMessage.MessageSequence.ValidateUtf8 | src/gateway/websocket_message.rs:59-91 | incremental checking accepts exactly when the text so far is valid (final fragment) or can still become valid |
| WebsocketMessage.TailDecides | src/gateway/websocket_message.rs:59-80 | the verdict on the completed code point alone is the verdict on everything received |
| WebsocketMessage.RestDecides | src/gateway/websocket_message.rs:81-91 | after valid text the verdict on the rest is the verdict on everything, and the bytes kept are its unfinished suffix |
| MessageRuns.CutMessageAccepted | src/gateway/websocket_message.rs:20-91 | for every cut of a message into frames, with empty fragments and interleaved control frames: all frames accepted exactly when the payload fits and text is UTF-8, otherwise rejection at the first frame after which no continuation is valid |
| MessageRuns.BoundedMessages.Collect | src/gateway/websocket_message.rs:105-152 | emits the concatenated message under its first opcode; the buffer exists exactly while a message is open and holds its bytes; the defensive error arms are not reached |
| MessageRuns.MessagesReassembled | src/gateway/websocket_message.rs:105-152 | round trip: any messages, each cut in any way, come out whole, in order and independent of the cuts |
| MessageRuns.AcceptedExactly | src/gateway/websocket_message.rs:20-58 | the converse: from a fresh start, frames are all accepted with nothing left open exactly when they are bounded messages, each cut in some way, one after the other, with short control frames anywhere; every other order is refused or leaves a message open |
| MessageRuns.RunConserves | src/gateway/websocket_message.rs:20-152 | for any frames, what was emitted and what is open is exactly what arrived in accepted frames; every emitted message is whole and bounded |
| MessageRuns.GrowthStep | src/gateway/websocket_message.rs:118-130 | the new capacity holds the data, never exceeds the maximum (so the subtraction cannot underflow), and keeps the amortised account |
| MessageRuns.ReallocationBound | src/gateway/websocket_message.rs:118-130 | over one message of any number of fragments reallocation moves fewer than twice the maximum bytes |
| Relay.GatewayRead.ReadFrame | src/gateway/relay.rs:41-55 | reads until one frame completes a message or is control, consuming the script exactly as the specification does |
| Relay.Pump | src/gateway/relay.rs:630-729 | forwards what the specification says and ends for its reason; when writes complete, that is the data messages that come out of reassembly, unchanged and in order, up to the first Close, then that Close |
| Relay.RelayForwardsMessages | src/gateway/relay.rs:673-722 | with writes that complete, what is forwarded is the data messages of the reassembler's run on the same frames, up to the first Close and then that Close; a cancelled pump has met no error |
| Relay.OnlyMessagesForwarded | src/gateway/relay.rs:689-725 | whatever happens, every forwarded frame is a whole bounded data message or a Close |
| Relay.MessagesRelayed | src/gateway/relay.rs:630-729 | end to end: messages cut in any way, with Pings and Pongs between fragments, leave the relay whole, in order and under their own opcodes |
| Relay.MessagesRelayedToClose | src/gateway/relay.rs:706-720 | with a Close after them, the messages and that Close are forwarded, nothing after it is, and the pump ends as closed by the peer |
| Relay.StoppedForwardExactly | src/gateway/relay.rs:689-720 | a write that stops leaves exactly the messages before it forwarded, and the pump failed |
| Relay.StoppedWriteExactly | src/gateway/relay.rs:530-576 | a write of the bridge that stops leaves exactly the earlier payloads and the part written, and ends as cancelled or failed |
| Relay.PumpWebsocketToTcp | src/gateway/relay.rs:483-578 | writes exactly the accepted data payloads up to the first invalid or close frame, failed write or cancellation |
| Relay.BridgeRefinesRelay | src/gateway/relay.rs:542-576 | on the same frames the bridge's bytes are the relay's payloads, concatenated, then the open fragment buffer; both stop at the same frame for the same reason |
| Relay.DisturbedIsPrefix | src/gateway/relay.rs:530-565 | cancellation or failure at any point leaves a prefix of the undisturbed byte stream |
| Relay.DisturbedRelayIsPrefix | src/gateway/relay.rs:673-722 | cancellation or failure at any point leaves a prefix of the undisturbed messages |
| Network.NormalizeOnce | src/security/network.rs:3-10 | normalisation is idempotent and undoes IPv4 mapping (section 2.5.5.2 of RFC 4291) |
| Network.ParseAccepts | src/security/network.rs:19-50 | a CIDR is accepted exactly when its prefix fits the family, it is not an IPv4-mapped block and its host bits are zero |
| Network.ContainsIsInterval | src/security/network.rs:52-63 | for every parsed CIDR, masked comparison is membership in [network, network + 2^(width - prefix)) of the same family |
| Network.NestedOrApart | src/security/network.rs:52-63 | any two parsed networks are nested or have no address in common |
| Network.MappedIsSame | src/security/network.rs:3-10 | an IPv4 address and its mapped form are members of the same networks |
| HttpPath.ValidateHttpPath | src/http_proxy/routes.rs:250-295 | accepts exactly the paths that meet the rules stated on the whole path, and reports which kind of rule the first error breaks |
| HttpPath.SegmentsDecide | src/http_proxy/routes.rs:264-293 | scanning segment by segment, jumping over encodings, enforces the whole-path rules |
| HttpPath.DecodingKeepsStructure | src/http_proxy/routes.rs:250-295 | for accepted paths decoding commutes with splitting, yields no dot segment or repeated separator, and is idempotent (sections 2.1, 3.3 and 6.2.2 of RFC 3986) |
| HttpPath.NoAlias | src/http_proxy/routes.rs:276-290 | an accepted path that decodes to unreserved bytes and separators is spelled that way already |
| HttpPath.DecodedBytes | src/http_proxy/routes.rs:276-290 | however it is spelled, an accepted path decodes to no control byte, backslash or percent sign |
| HttpPath.SpellingIsUnique | src/http_proxy/routes.rs:276-290 | leaving the length limit aside, a path has no other spelling exactly when its decoded bytes are unreserved, separators, spaces or hashes |
| HttpPath.AcceptedSpellingIsUnique | src/http_proxy/routes.rs:250-295 | an accepted path has no other accepted spelling exactly then, or when it has no room for one more encoding and none of its own could be written otherwise |
| HttpPath.SubDelimsAlias | src/http_proxy/routes.rs:276-290 | a path with two accepted spellings |
| HttpRoutes.Build | src/http_proxy/routes.rs:98-214 | succeeds exactly when every row passes every check, reports the first row's error otherwise, and stores exactly the enabled rows |
| HttpRoutes.RowsOkExactly | src/http_proxy/routes.rs:98-179 | what the checks accept, without their order: rows that each fit, no two with the same id or the same host, path and kind of match |
| HttpRoutes.EnabledCountIsSize | src/http_proxy/routes.rs:180-212 | the enabled count is the number of stored routes |
| HttpRoutes.Resolve | src/http_proxy/routes.rs:215-231 | the chopping loop terminates and returns the exact route if any, otherwise the longest stored prefix that covers the path |
| HttpRoutes.ChopSkipsNothing | src/http_proxy/routes.rs:219-230 | cutting the candidate at its last slash passes over no covering prefix |
| HttpRoutes.ResolveIsLinearScan | src/http_proxy/routes.rs:98-231 | for every accepted table, lookup equals a linear scan of the enabled rows of the host |
| HttpRoutes.ResolvedRouteMatches | src/http_proxy/routes.rs:215-231 | a lookup returns only routes that passed the build checks and match host and path |
| HttpRoutes.ResolvedRouteIsRow | src/http_proxy/routes.rs:180-231 | what a lookup returns has, field by field, the content of exactly one enabled row of that host |
| HttpRoutes.RewriteTarget | src/http_proxy/routes.rs:61-86 | refuses exactly invalid paths and, unless preserving, paths that do not begin with the route's; for a matched path the target is a path from which the request path can be read back (`ReadsBack`: the path itself; the rest after the prefix, or the root; the replacement and the rest), then `?` and the query |
| HttpRoutes.RewriteReadsBack | src/http_proxy/routes.rs:61-86 | preserved, the path is unchanged; stripped, the route's path put in front gives it back, the bare prefix giving the root; replaced, both share what follows the front |
| HttpRoutes.RewriteKeepsRules | src/http_proxy/routes.rs:61-86 | rewriting a valid path of a matched route never fails and keeps every path rule but possibly the length limit |
| HttpRoutes.RewrittenLength | src/http_proxy/routes.rs:61-86 | a replaced path is valid exactly when its length fits |
| HttpRoutes.RewriteCanOverflow | src/http_proxy/routes.rs:61-86 | an accepted route and a valid path whose target is one byte over the limit |
| HttpRoutes.ReplaceIsInjective | src/http_proxy/routes.rs:61-86 | replacing the prefix sends different matched paths to different targets |
| HttpRoutes.StripMergesOnlySlash | src/http_proxy/routes.rs:61-86 | stripping merges P and P/ and nothing else |
| HttpRoutes.QueryPreserved | src/http_proxy/routes.rs:61-86 | path and query can be read back from a rewritten target |
| RouteTables.Build | src/routes/table.rs:37-91 | succeeds exactly when every row passes every check, reports the first row's error otherwise, and stores exactly the enabled rows |
| RouteTables.RowsOkExactly | src/grpc/routes.rs:31-85 | what the checks accept, without their order: rows that each fit, no two with the same id or the same host and path |
| RouteTables.ResolveIsScan | src/routes/table.rs:93-95 | exact lookup equals a scan of the enabled rows |
| RouteTables.ResolvedRouteIsRow | src/routes/table.rs:93-95 | what a lookup returns has, field by field, the content of exactly one enabled row with that host and path |
| RouteTables.EnabledCountIsSize | src/grpc/routes.rs:31-85 | the enabled count is the number of stored routes |
| Config.ValidateRoutes | src/config/mod.rs:531-597 | accepts exactly the acceptable row sets and returns the three tables and the set of hosts |
| Config.CheckGrpcRows | src/config/mod.rs:554-575 | refuses exactly a gRPC key taken by a WebSocket row or an earlier gRPC row |
| Config.KeysDisjoint | src/config/mod.rs:531-593 | no host and path is an exact route of two kinds |
| Config.OrderIrrelevant | src/gateway/listener.rs:520-532 | for every accepted configuration the order of the lookups cannot change which exact route is chosen |
| Config.CountsAreSizes | src/config/mod.rs:531-593 | for every accepted configuration the three enabled counts are the table sizes |
| ViolationWindows.CrossingIsSound | src/security/ip_blocking.rs:165-209 | a count at the threshold stands for at least that many counted violations within less than the window |
| ViolationWindows.CrossingIsComplete | src/security/ip_blocking.rs:165-209 | any span shorter than the window with 2 * threshold - 1 counted violations contains a crossing |
| ViolationWindows.FactorOfTwoIsTight | src/security/ip_blocking.rs:165-209 | with one violation fewer, for every rule and threshold, a chain of windows without a crossing |
| ViolationWindows.LateCrossingIsSound | src/security/ip_blocking.rs:165-209 | when violations wait for the lock, a count at the threshold stands for that many, any two less than the window plus the longest wait apart |
| ExampleRuns.StraddlesWindows | src/security/ip_blocking.rs:165-209 | a run of the engine that counts exactly so, and blocks nobody |
| ViolationWindows.CapacitiesSumToMaximum | src/security/ip_blocking.rs:177-198 | the 64 shard capacities sum to exactly the configured number of tracked clients |
| IpBlocking.AllowedIsInterval | src/security/ip_blocking.rs:125-127 | a client is allowed exactly when its normalised address lies in the interval of some configured CIDR, in either form of an IPv4 address |
| IpBlocking.IpBlockingRuntime.IsClientIpBlocked | src/security/ip_blocking.rs:129-140 | blocked exactly when the engine is enabled, the client not allowed, and live in the durable or the temporary snapshot |
| IpBlocking.IpBlockingRuntime.RecordClientProtocolViolation | src/security/ip_blocking.rs:149-235 | performs exactly the recording step on shards, pending set and temporary snapshot |
| IpBlocking.IpBlockingRuntime.SweepWindows | src/security/ip_blocking.rs:267-275 | evicts exactly the idle clients of every shard |
| IpBlocking.IpBlockingRuntime.ExpirePending | src/security/ip_blocking.rs:277-283 | removes exactly the lapsed entries; the snapshot still mirrors the set although it is republished only on a change |
| IpBlocking.IpBlockingRuntime.TakeBatch | src/security/ip_blocking.rs:338-352 | takes distinct live entries, all of them when they fit the batch |
| IpBlocking.IpBlockingRuntime.BuildCandidate | src/security/ip_blocking.rs:359-412 | builds exactly the specified candidate, or the specified error |
| IpBlocking.IpBlockingRuntime.PersistPending | src/security/ip_blocking.rs:338-453 | memory, disk and result are those of the specified transaction on the batch taken; on failure nothing in memory changes |
| IpBlocking.IpBlockingRuntime.ConsumePending | src/security/ip_blocking.rs:454-464 | exactly the given entries leave the pending set and the snapshot |
| IpTransaction.PrepareTransacts | src/security/ip_blocking.rs:359-412 | a candidate keeps every live block unmodified, adds only blocks for batch entries, stays within the table, and consumes only blocked or allowed clients |
| IpTransaction.CommitIsTransaction | src/security/ip_blocking.rs:338-464 | the committed state: live blocks unmodified, new blocks a day long for batch entries, the table bounded, exactly the consumed entries gone, each blocked or allowed |
| IpTransaction.SuccessConsumes | src/security/ip_blocking.rs:361-410 | success with live work consumes nothing exactly for a forced compaction of a table full of live blocks whose first live entry is new |
| IpTransaction.RefusesExactly | src/security/ip_blocking.rs:359-412 | a transaction refuses for capacity exactly when there is work, no forced compaction, and the table is full of blocks that all still last; for the clock exactly when otherwise something is to be done and the wall clock cannot be read |
| IpTransaction.SuccessTakesAll | src/security/ip_blocking.rs:372-403 | a successful transaction takes every live entry of its batch, unless it has filled the table |
| IpTransaction.AddedRow | src/security/ip_blocking.rs:383-401 | a new block lasts 86400 seconds on both clocks and its row has the client, rule and count of its entry |
| ExampleRuns.CompactionConsumesNothing | src/security/ip_blocking.rs:285-291 | a run from a full file in which the first, forced, transaction commits and its live entry stays pending |
| IpDrain.RoundShrinks | src/security/ip_blocking.rs:312-335 | every successful drain round leaves fewer entries for the next |
| IpDrain.DrainRounds | src/security/ip_blocking.rs:314-335 | terminates, and does exactly the rounds of the specification: expire, commit a batch, stop on nothing left, failure or a full table |
| IpDrain.ShutdownDrain | src/security/ip_blocking.rs:312-335 | the same after recording has stopped, with every entry accounted for and the durable table settled on disk |
| IpDrain.DrainLosesNothing | src/security/ip_blocking.rs:312-335 | every pending entry is at the end still pending, or lapsed by the clock of a round that ran, or its client allowed, or its client got a durable block of a day (or had a live one from the beginning) that stays until it expires; such a new block ends no earlier than an entry that had at most five minutes left at the start |
| IpDrain.RoundsOnDisk | src/security/ip_blocking.rs:327-330 | however the drain ends, the settled file is the one written for the durable table, or neither changed |
| BlockFile.SortedLists | src/security/ip_blocking_persistence.rs:134-160 | the rows are written in strictly ascending order, each live address once |
| BlockFile.WrittenIsLoadable | src/security/ip_blocking_persistence.rs:134-160 | whatever is written can be loaded: version, size, number of rows, duration, count, unique normalised addresses |
| BlockFile.StateWriter.PersistClientIpBlocklistAtomically | src/security/ip_blocking_persistence.rs:134-200 | performs the file actions in order under every combination of failures, and remembers a temporary it could not remove |
| BlockFile.JobCommits | src/security/ip_blocking_persistence.rs:134-200 | reported success means the new file is current and settled |
| BlockFile.JobEndsExactly | src/security/ip_blocking_persistence.rs:134-200 | exactly when a replacement succeeds (orphan gone or removable, permitted size, fresh name, every action up to the directory sync), which file is current afterwards, and which temporary files are left and remembered, for every combination of outcomes |
| BlockFile.StateWriter.LoadClientIpBlocklist | src/security/ip_blocking_persistence.rs:62-133 | accepts exactly loadable files, restores exactly their unexpired rows, creates an absent file empty |
| BlockFile.RestoreRows | src/security/ip_blocking_persistence.rs:99-130 | accepts exactly rows of a day, with a count, and unique after normalisation |
| BlockFile.RestoreRow | src/security/ip_blocking_persistence.rs:114-128 | a row is restored exactly when it has not expired, cut to a day; the overflow guard is not reached |
| BlockFile.ReloadKeepsDeadline | src/security/ip_blocking_persistence.rs:114-128 | on clocks that advance together a reload moves a deadline by less than a second, however often it happens |
| BlockFile.ReloadKeepsBlock | src/security/ip_blocking_persistence.rs:114-128 | a block with at least a second left is not dropped, and a restored one had not lapsed |
| BlockFile.DroppedExactly | src/security/ip_blocking_persistence.rs:114-128 | a live block is dropped exactly when its deadline falls in the wall-clock second of the reload |
| ExampleRuns.ReloadDropsBlock | src/security/ip_blocking_persistence.rs:114-128 | a run to a state with a live block and a restart that drops it |
| BlockFile.RestoredWithinADay | src/security/ip_blocking_persistence.rs:114-128 | no restored deadline is more than 86400 seconds ahead |
| IpBlockingRuns.SweptIsOver | src/security/ip_blocking.rs:267-275 | in every state of the invariant, all rule windows of a client the sweep evicts have expired |
| IpBlockingRuns.ConsumedIsActivated | src/security/ip_blocking.rs:372-403 | in this machine every consumed entry gets a new block of a day |
| IpBlockingRuns.DiskKept | src/security/ip_blocking_persistence.rs:134-200 | every step, each file action included, keeps a whole loadable file that covers the live durable blocks |
| IpBlockingRuns.InvariantKept | src/security/ip_blocking.rs:149-464 | every step keeps bounds, mirror, coverage, counting, file and clock invariants |
| IpBlockingRuns.InvariantAlways | src/security/ip_blocking.rs:149-464 | they hold in every state of every run, across crashes and reloads |
| IpBlockingTheorems.NoGapAtHandoff | src/security/ip_blocking.rs:212-240 | from becoming pending until its fixed deadline every request of a client is refused, through failed commits and between publishing and consuming |
| IpBlockingTheorems.DeadlineNeverExtended | src/security/ip_blocking.rs:216-240 | no step moves the deadline of a temporary block |
| IpBlockingTheorems.NothingCountedWhileBlocked | src/security/ip_blocking.rs:165-170 | while a client's temporary block runs none of its violations is counted |
| IpBlockingTheorems.NothingCountedWhileDurable | src/security/ip_blocking.rs:165-170 | nor is any until the deadline of a durable block, which stays in memory until then |
| IpBlockingTheorems.StateIsBounded | src/security/ip_blocking.rs:177-231 | tracked clients, pending set and durable map stay within their limits, and the temporary snapshot is the image of the pending set |
| IpBlockingTheorems.PendingIsEarned | src/security/ip_blocking.rs:165-231 | a client becomes pending only after `threshold` counted violations of the rule within less than its window |
| IpBlockingTheorems.CrossingIsReached | src/security/ip_blocking.rs:165-231 | in every run 2 * threshold - 1 counted violations within less than the window cross the threshold |
| IpBlockingTheorems.FreshAfterBlock | src/security/ip_blocking.rs:45-52 | after a temporary block every rule restarts from a fresh window |
| IpCrossings.CountedExactly | src/security/ip_blocking.rs:149-209 | a violation is counted, once and at its time, exactly when the engine is enabled and accepting, the client is not allowed, no block of it lasts and its shard has a place; otherwise nothing changes |
| IpCrossings.RefusedOrCounted | src/security/ip_blocking.rs:129-170 | a watched client with a place in its shard is either refused or counted, never both; any other client neither |
| IpCrossings.CrossingEnters | src/security/ip_blocking.rs:205-231 | a counted violation makes its client pending exactly when the count has reached the threshold, no entry of the client waits and the set has room; then the client is refused for 300 seconds from it |
| IpCrossings.EnoughViolationsBlock | src/security/ip_blocking.rs:165-231 | in every run of one process with room in the pending set, 2 * threshold - 1 violations of a rule counted within less than its window contain one that makes the client pending |
| ExampleRuns.LapsedEntryWaits | src/security/ip_blocking.rs:214-216 | a run in which a violation at the threshold does not block, because the lapsed entry of the client was not expired yet |
| IpBlockingTheorems.PowerLossKeepsBlocks | src/security/ip_blocking_persistence.rs:134-200 | in a synced state a power loss in the middle of any file action leaves a file with a row for every client live in the durable map |
| IpBlockingTheorems.StopKeepsBlocks | src/security/ip_blocking_persistence.rs:134-200 | a stop of the process leaves such a file in every state |
| IpBlockingTheorems.ReloadRestores | src/security/ip_blocking_persistence.rs:62-133 | loading the surviving file restores those clients no second earlier and never more than a day ahead, and no second later when no row was cut since memory was last written back |
| IpBlockingTheorems.ReloadExtendsExactly | src/security/ip_blocking_persistence.rs:114-120 | per client, a reload gives longer than memory had exactly when the row ends later than the block and a day from the reload does too |
| IpBlockingTheorems.CutRowSlides | src/security/ip_blocking_persistence.rs:114-120 | a row cut by two loads moves its deadline by exactly the time between them |
| IpBlockingTheorems.AtMostOneTemporary | src/security/ip_blocking_persistence.rs:134-200 | a live writer leaves at most one temporary file, which it remembers between transactions |
| IpDurability.FirstStart | src/security/ip_blocking_persistence.rs:80-87 | a start on a disk without a state file satisfies the invariants, whatever its attempts to create one met |
| IpDurability.PowerLossLeavesWholeFile | src/security/ip_blocking_persistence.rs:134-200 | in every run a power loss at any moment leaves a whole file that loads, or none if nothing is settled |
| IpDurability.DoubtsExactly | src/security/ip_blocking_persistence.rs:180-187 | what a power loss could bring back against memory is what could have come back instead of the file when the process started, until the first directory sync succeeds |
| IpDurability.LosesExactly | src/security/ip_blocking_persistence.rs:180-187 | at any point of any run a client can be lost exactly when the directory was not synced since the start and something in doubt then has no row as long as its block, an absent file included |
| IpBlockingTheorems.UnsyncedRestartCanLose | src/security/ip_blocking_persistence.rs:177-187 | between rename and directory sync, a restart of the process and a power loss can lose a blocked client |
| ExampleRuns.LossHappens | src/security/ip_blocking_persistence.rs:177-187 | a whole run from a fresh start that ends in that loss |
| ExampleRuns.FirstFileCanVanish | src/security/ip_blocking_persistence.rs:80-87 | when the first creation fails only at its directory sync, the next start trusts the empty file and a power loss can leave none |
| SplitRecording.InsertIsEnqueue | src/security/ip_blocking.rs:212-234 | the late insert is the locked step of recording, at the time the request took |
| IpCrossings.SplitCrossing | src/security/ip_blocking.rs:189-209 | counting takes a request on to the pending lock exactly when the count has reached the threshold |
| IpCrossings.SplitEnters | src/security/ip_blocking.rs:212-231 | there the client is entered, for 300 seconds from the time the request took, exactly when it is not there and there is room |
| IpCrossings.AtOnceIsRecord | src/security/ip_blocking.rs:165-231 | the separate steps, taken without interruption, are the one step of the simpler machine |
| SplitRecording.InvariantKept | src/security/ip_blocking.rs:165-234 | every step of the finer machine keeps its invariant while no publication is too late |
| SplitRecording.CountsKept | src/security/ip_blocking.rs:165-209 | every step keeps the counters in step with the violations counted, although their times may be out of order |
| SplitRecording.PendingIsEarned | src/security/ip_blocking.rs:165-231 | a client becomes pending only after `threshold` counted violations of the rule, any two less than the window plus the longest wait apart |
| SplitRecording.NoGapWithSplitRecording | src/security/ip_blocking.rs:165-234 | with reads, count and insert as separate steps, a client that became pending is still refused until its deadline, in every run without a late publication |
| SplitRecording.GapWhenLate | src/security/ip_blocking.rs:376-378 | for every delay strictly between 86100 and 86400 seconds there is a run with a gap |
| SplitRecording.GapExactly | src/security/ip_blocking.rs:376-378 | letting publications through with a given delay makes a gap possible exactly for those delays |
| SplitRecording.LateEntryIsOnlyConsumed | src/security/ip_blocking.rs:376-378 | an entry of a client that is durable meanwhile is consumed without a new block, and the old block lasts as long |
| SplitRecording.LateEntryHappens | src/security/ip_blocking.rs:376-378 | a run with such an entry |
| HttpPool.TakeIdle | src/http_proxy/pool.rs:241-251 | returns the topmost connection that is open and was put in less than the timeout ago; everything above it, or everything if there is none, is closed or was put in at least the timeout ago |
| HttpPool.UpstreamPool.TakeIdleHttp1 | src/http_proxy/pool.rs:241-251 | likewise, and drops exactly the entries above it |
| HttpPool.UpstreamPool.ReturnHttp1 | src/http_proxy/pool.rs:398-409 | keeps and announces the connection exactly when not shut down, open and below the idle limit, otherwise drops it |
| HttpPool.UpstreamPool.ReapIdle | src/http_proxy/pool.rs:415-422 | keeps exactly the entries that are open and were put in less than the timeout ago, none in a shutdown, in order, and drops the others |
| HttpPool.UploadBody.PollFrame | src/http_proxy/pool.rs:486-533 | the upload is complete once its end was seen without error, and only then; a timeout cancels the exchange |
| HttpPool.CompleteExactly | src/http_proxy/pool.rs:486-533 | over any polls the upload becomes complete exactly when one sees the end without an error and none before it timed out |
| HttpPool.PooledResponseBody.PollFrame | src/http_proxy/pool.rs:578-618 | performs exactly the specified step on body, pool and exchange |
| HttpPool.PooledResponseBody.FinishHttp1 | src/http_proxy/pool.rs:557-568 | takes the connection and gives it back or drops it |
| HttpPool.PooledResponseBody.Drop | src/http_proxy/pool.rs:569-574 | finishes the connection if it is still there and cancels the exchange |
| HttpPool.LeavesOnce | src/http_proxy/pool.rs:557-618 | over any polls and drops a connection leaves its body at most once |
| HttpPool.GivenBackOnlyClean | src/http_proxy/pool.rs:557-618 | it is given back only when the response was read to its end, nothing before spoiled it and the upload was complete |
| HttpPool.CleanIsGivenBack | src/http_proxy/pool.rs:557-618 | conversely a clean body gives its connection back at its first step that reads to the end |
| HttpPool.FirstReleaseDecides | src/http_proxy/pool.rs:557-618 | the connection stays in its body until the first step that sees the end, runs out of time or drops the body; that step gives it back if everything was clean, otherwise drops it |
| PoolRuns.WakeupKept | src/http_proxy/pool.rs:253-286 | no lost wake-up: while a waiter sleeps without a notification, idle connections are at most the wake-ups in flight; every step keeps this, timeouts, the permit branch and fast-path callers included |
| PoolRuns.WakeupsAfterDepart | src/http_proxy/pool.rs:272-276 | a waiter that goes away with an unused notification takes at most its own look with it |
| PoolRuns.NothingIdleBesideSleepers | src/http_proxy/pool.rs:263-277 | when all waiters sleep without a notification, the idle list is empty |
| PoolRuns.PermitsKept | src/http_proxy/pool.rs:67-91 | free, reserved and live-control permits add up to the local and the global limit after every step |
| PoolTheorems.OwnedKept | src/http_proxy/pool.rs:203-306 | every step keeps each connection with exactly the owner that holds it |
| PoolTheorems.InvariantAlways | src/http_proxy/pool.rs:187-435 | wake-ups, permits, ownership and the idle bound hold after every run |
| PoolTheorems.OneOwner | src/http_proxy/pool.rs:73-91 | no two of idle list, exchanges and tunnels hold the same connection, and what one holds is live |
| PoolTheorems.UnheldIsDropped | src/http_proxy/pool.rs:77-81 | a live connection that nobody holds is exactly one its owner dropped |
| PoolTheorems.ReturnsAreClean | src/http_proxy/pool.rs:398-409 | a connection becomes idle only from the exchange that held it, after a healthy response read to its end and a completed upload, while open and before shutdown |
| PoolTheorems.UploadCompleteMeansEnded | src/http_proxy/pool.rs:500-515 | in every run an upload counts as complete only after its end was known when this exchange started or was seen since by a poll without an error |
| PoolTheorems.ReturnFollowsUpload | src/http_proxy/pool.rs:557-568 | in every run from creation a connection becomes idle only after the upload of this very exchange ended |
| PoolTheorems.NeverHoldsAgain | src/http_proxy/pool.rs:557-574 | an exchange that let its connection go never holds one again, so it gives one back at most once |
| PoolTheorems.ConnectionsBounded | src/http_proxy/pool.rs:203-239 | live connections stay within both limits, and idle ones are among them |
| PoolReuse.BecomesIdleExactly | src/http_proxy/pool.rs:398-409 | a step of a response body makes its connection idle, dated now and on top, exactly when the response was healthy and read to its end, the upload is complete, the connection is open, there is no shutdown and the idle list is below its limit |
| PoolReuse.TakesLatest | src/http_proxy/pool.rs:241-251 | a look at the idle list hands out the connection given back last among those open and idle for less than the timeout, and nothing exactly when there is none |
| PoolReuse.ReuseIsFresh | src/http_proxy/pool.rs:241-286 | in every run from creation, a connection handed out again is open, was given back by a step of the run less than the idle timeout ago and has been idle since |
| PoolReuse.LeavesOnlyFor | src/http_proxy/pool.rs:241-251 | a connection leaves the idle list only by being handed out, when closed or idle for the timeout, or reaped in a shutdown |
| PoolReuse.FreshIsKept | src/http_proxy/pool.rs:415-422 | over every run, an idle connection that stays open is still idle until its timeout or the shutdown, or was handed out |
| PoolTheorems.TakeIsMethod | src/http_proxy/pool.rs:241-251 | the machine's step changes the stack and drops connections as the method does |
| PoolTheorems.ReapIsMethod | src/http_proxy/pool.rs:415-422 | likewise for reaping |
| PoolTheorems.MoveIsMethod | src/http_proxy/pool.rs:398-409 | likewise for giving back and dropping |

## Left out

* Sockets, TLS, HTTP parsing, JSON text, logging, counters and diagnostics. A block file is a sequence
  of records; its serialised length is an arbitrary function `size`, compared with 32 MiB.
* Text of addresses, CIDRs, hosts, identifiers, backends and upstreams: the outcome of parsing or
  checking them is recorded in the rows (`idOk`, `host`, `backendOk`, `upstreamOk`) or passed in.
* WebSocket and gRPC tables are one model, because both builders make the same checks in the same
  order over (host, path) keys.
* The allow list is a function from addresses; `IpBlocking.AllowedIsInterval` is about the one made from
  CIDRs.
* Requests that take the durable and the temporary snapshot at different moments to ask whether they are
  blocked: the no-gap results are about the answer in one state. Recording is one step in
  `IpBlockingRuns` and several in `SplitRecording`, which in turn leaves out files and restarts.
* The manager's schedule, backoff delays and timers: its steps are taken in any order its control flow
  allows. A disabled engine counts and refuses nothing; that it loads no file is not modelled.
* Mutex poisoning, the hash and its order: the shard of an address is an arbitrary function, a batch any
  permitted selection.
* Range checks on configuration, and the order of hosts and of error messages.
* Control-frame replies, and the order in which two tasks write to one socket.
* HTTP/2 connections, the pending and active semaphores and their time limits. A waiter may give up at
  any moment, and a connection attempt may be abandoned at any moment.
* Header rules of requests, responses and trailers: a frame refused by them is a bad frame.
* Platforms without a directory sync: the file protocol is the Unix one.
* The fallback handler, which is not part of the module tree.
- HttpPath.ValidateHttpPath: the first error among several in one path is stated per segment through `FirstSegmentError`; the text of error messages is not modelled.
- Relay.Pump: a write that is cut short counts as not forwarded, because a message is either sent or the connection fails.
- BlockFile.StateWriter.PersistClientIpBlocklistAtomically: file permissions and the advisory lock are not modelled; one writer is assumed, as the lock enforces.
