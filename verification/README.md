# Verification of the Shelly library's protocols, pools, indexes and codecs

A Dafny model of the parts of the Go library that carry state machines, invariants and wire
formats, with proofs about every run, every input or every interleaving.  `dafny verify
dfyconfig.toml` checks the whole project.

| files | what they model |
|---|---|
| `PendingCalls`, `PendingMail`, `PendingClose`, `PendingTable` | request/response correlation over a shared MQTT or WebSocket connection |
| `BulkProvisioning` | the worker pool of bulk provisioning, under every schedule |
| `ProvisioningTasks` | provisioning tasks, cancelled and deleted while they execute |
| `Accounts`, `AccountStore` | user accounts with their device index |
| `EventBus`, `EventBusRuns`, `EventBusLeftovers`, `EventBusObjects` | the event bus and the handler registries sharing it, under every interleaving of their critical sections |
| `Coap` | finding a CoAP payload, in three packages |
| `Base64` | two encoders and a decoder |
| `BtHome` | BTHome v2 service data |
| `Schedule` | schedule rules and times of day |
| `Subnet` | enumerating an IPv4 network |
| `RateLimiter` | the cloud client's rate limiter |
| `RpcBatch` | matching JSON-RPC batch responses through floating-point ids |
| `StagedRollout` | sizing and running a staged firmware rollout |

Most components come twice: as values, where the theorems are stated, and as methods or classes
that work in place and are proved to do the same.  In the `Pending` files, `BulkProvisioning`,
`ProvisioningTasks`, `EventBusRuns` and `EventBusLeftovers` a step is one critical section, channel operation or
atomic access, so a theorem about every sequence of steps is a theorem about every
interleaving.  What the environment decides (clocks, contexts, the network, the scheduler,
shuffles, provisioning outcomes) is a parameter or an arbitrary choice.

Where the code does not do what it says, the model follows the code and says exactly when it
does:

- Events are documented to be delivered in subscription order; unsubscribing swaps the last
  subscription into the gap, which keeps the order only near the end (`InOrderIffGentle`,
  `FirstHarshRemovalReorders`).
- A closed bus is documented to be inert; a publish or subscribe that passed its check before the
  flag went up still adds to it (`CloseEmptiesIffNobodyLate`, `PublishRacesWithClose`).
- A handler can be called after its Unsubscribe has returned (`CalledAfterRemovalIff`,
  `HandlerRunsAfterUnsubscribe`), and UnsubscribeAll leaves subscriptions of its registry that are
  not tracked yet or any more (`LeavesNoneIffSettled`, `RegistrationSurvives`).
- Cancelling a running provisioning task succeeds but does not last (`CancelHoldsIffPending`,
  `CancelIsOverwritten`).
- A WebSocket call dereferences nil after a connection loss (`FirstEventWins`,
  `LossDereferencesNil`), and closing the WebSocket transport leaves its calls waiting
  (`CloseUnblocksIff`, `CloseLeavesCallWaiting`).
- Two ids that share a key in `pending` lose track of a call (`TracksIffFresh`), and the two
  counters that give ids can collide (`CollidingCountersOrphan`).
- Granting a device to two users, or loading two records of one user, breaks the device index
  (`ExactIffDisjoint`, `SecondGrantLosesEntry`, `LoadSoundIffNothingLost`).
- Discovery's option skipper and the Gen1 payload search miss the payload on some messages
  (`SkipsExactlyIffShort`, `Gen1AgreesIffNoMarkerByte`).
- The base64 decoder computes a negative length for two inputs (`NegativeLengthIffBarePadding`),
  and a `/0` network is enumerated forever (`LeavesIffPrefix`).
- Nothing checks a rollout's batch size: with zero it updates nothing and waits until its context
  ends or it is cancelled, and with a negative one it panics unless the first turn finds either
  (`HaltsIff`).  Nothing checks a percentage set directly either: above 100 the target can exceed
  the fleet, and below zero the selection can panic (`TargetIsShare`, `SelectionIsPart`).
- Batch ids past 2^53 are confused (`DistinctIffBelow`, `PastTheBoundAnswersCross`).
- A parsed device rule's relay index is lost when the rule is rebuilt (`RuleNormalises`), and
  entries with other days or actions are printed as something else (`RuleKeepsEntry`).

## Model

| member | source | states |
|---|---|---|
| `PendingCalls.SafeStep` | transport/mqtt.go:157-197 | Every critical section keeps the table safe: nothing panicked, and each filed channel is open and filed under its owner's key |
| `PendingCalls.TracksIffFresh` | transport/mqtt.go:274-284 | Registering a call keeps `pending` equal to the calls registered and neither finished nor cancelled, in every continuation, if and only if no call in flight uses its key |
| `PendingCalls.RunTracks` | transport/mqtt.go:274-284 | With keys distinct in flight, `pending` is exactly those calls after every run |
| `PendingCalls.BuilderIdsAreFresh` | rpc/request.go:111-113 | Ids from one builder below 2^63, each used once, are distinct in flight in every interleaving |
| `PendingMail.FirstEventWins` | transport/mqtt.go:299-311 | In a run with distinct keys a waiting call can receive exactly when its mail arrived, and returns what came first: the first response with its id, or the loss; a loss that came first is an error over MQTT and a nil dereference over WebSocket, which lacks the check |
| `PendingClose.SweepUnblocksEveryone` | transport/mqtt.go:163-169 | After a connection loss or MQTT's Close every waiting call can go on, and a response buffered before is still the one received |
| `PendingClose.OrphanStaysBlocked` | transport/mqtt.go:280-284 | A waiting call whose channel left the map on an open, empty channel stays blocked in every continuation until it gives up itself |
| `PendingClose.CollidingCountersOrphan` | transport/mqtt.go:268-284 | The transport's own counter, which never repeats an id, and a request builder's can meet in flight (a batch has no numeric id); a reachable state where the first call is orphaned |
| `PendingClose.NobodyUnblocksAfterTheLastSweep` | transport/mqtt.go:234-237 | A call that is waiting, or registers, once the last sweep is over is unblocked only by its own response |
| `PendingTable.ResponseChannel.TrySend` | transport/mqtt.go:191-194 | A non-blocking send fills an empty slot and leaves a full one; the channel must not be closed |
| `PendingTable.RequestTable.Register` | transport/mqtt.go:274-278 | Filing a channel is the table operation of the protocol model |
| `PendingTable.RequestTable.HandleResponse` | transport/mqtt.go:179-197 | The response handler's critical section is that operation, and never sends on a closed channel |
| `PendingTable.RequestTable.CancelAll` | transport/mqtt.go:163-169 | Closing and deleting entries in any order empties the map, closes every filed channel once and equals the sweep of the protocol model |
| `PendingTable.RequestTable.Finish` | transport/mqtt.go:280-284 | The deferred deletion is that operation |
| `BulkProvisioning.ResolveTargetConfig` | provisioning/provisioning.go:970-991 | A target's own configuration wins over its profile's; options come from the profile when it has any |
| `BulkProvisioning.ProvisionWithRetry` | provisioning/provisioning.go:994-1044 | At most max(RetryCount, 0) + 1 tries; success if and only if some try within the limit succeeds and no wait before it was cancelled; no try after a success |
| `BulkProvisioning.SendsNeverBlock` | provisioning/provisioning.go:886-932 | In every reachable state no send on either channel finds it full or closed |
| `BulkProvisioning.StepInv` | provisioning/provisioning.go:903-948 | Every step of every goroutine keeps each queued target in exactly one place, and skipped targets reported as failures |
| `BulkProvisioning.SomeoneCanMove` | provisioning/provisioning.go:903-948 | Until the caller is done some goroutine can move: no deadlock |
| `BulkProvisioning.RunIsBounded` | provisioning/provisioning.go:903-948 | Every run is bounded by a count of steps: termination under every schedule |
| `BulkProvisioning.EverySchedule` | provisioning/provisioning.go:857-966 | For every schedule: the workers number at most max(Concurrency, 1), at most one per target, and are one of the two; no more devices than workers are in progress; bounded length, no deadlock, no blocked or panicking send; and at the end exactly one report per target, a success exactly if the target has a configuration and its provisioning succeeds |
| `BulkProvisioning.RunPool` | provisioning/provisioning.go:941-958 | Under an arbitrary scheduler and arbitrary outcomes the pool terminates, and successes plus failures equal the targets |
| `Accounts.HistoryIsSound` | integrator/accounts.go:69-122 | Over any history of additions, removals and callbacks every index entry names an existing account that lists the device, so a lookup succeeds exactly when the device is indexed |
| `Accounts.ExactIffDisjoint` | integrator/accounts.go:69-218 | An operation keeps the index the exact inverse of the lists if and only if it grants no device to a second user and lists none twice |
| `Accounts.HistoryIsExact` | integrator/accounts.go:69-218 | On histories of such operations the index stays the exact inverse and DeviceCount is the total length of the lists |
| `Accounts.ExactCounts` | integrator/accounts.go:259-263 | With an exact index DeviceCount equals the total length of the lists |
| `Accounts.RevokeUndoesGrant` | integrator/accounts.go:159-218 | Removing a device undoes adding it when no user had it |
| `Accounts.LoadIsLast` | integrator/accounts.go:394-415 | Reloading files per user the last record, and per device the user of the last record listing it |
| `Accounts.LoadSoundIffNothingLost` | integrator/accounts.go:394-415 | Reloading yields a sound index if and only if no replaced record holds a device that no later record lists |
| `Accounts.LostDeviceIsUnsound` | integrator/accounts.go:394-415 | Two records for one user: a lookup of the lost device names an account that does not list it |
| `Accounts.SaveThenLoad` | integrator/accounts.go:381-415 | Saving and reloading restores an exact book, whatever order the accounts are written in |
| `AccountStore.AccountManager.AddAccount` | integrator/accounts.go:69-97 | The in-place update of both maps is the operation on values |
| `AccountStore.AccountManager.AddDevice` | integrator/accounts.go:159-193 | Likewise; replaces a listed device in place, appends a new one |
| `AccountStore.AccountManager.RemoveDevice` | integrator/accounts.go:196-218 | Likewise; removes the first entry with the id |
| `AccountStore.AccountManager.GetDevice` | integrator/accounts.go:221-238 | Finds the device and its account through the index |
| `AccountStore.AccountManager.FromRecords` | integrator/accounts.go:394-415 | The reloading loops compute the value model's reload |
| `AccountStore.AccountManager.ProcessCallback` | integrator/accounts.go:457-466 | A callback adds or removes its device, and any other action does nothing |
| `Coap.ParseCoapMessage` | transport/coap.go:244-331 | The scanning loop terminates and never reads out of range on any bytes, and computes the scan that the lemmas below are about |
| `Coap.EncodedIsParsed` | transport/coap.go:273-331 | For every token of at most 8 bytes, every option list in all three length forms and every non-empty payload, the scan stops exactly at the payload |
| `Coap.AcceptsExactlyMessages` | transport/coap.go:244-331 | A scan yields a payload offset if and only if the bytes are the encoding of a message with its payload there |
| `Coap.UnreservedIsStandard` | transport/coap.go:273-317 | Every option without the reserved field value is an option of section 3.1 of RFC 7252 |
| `Coap.SkipCoapOptions` | discovery/coiot.go:161-194 | The skipping loop terminates, stays in bounds and computes the skip that the lemmas below are about |
| `Coap.SkipsExactlyIffShort` | discovery/coiot.go:161-194 | Discovery skips an option exactly to its end if and only if its value has at most 255 bytes, because its length is a byte |
| `Coap.DiscoveryAgreesOnShort` | discovery/coiot.go:123-158 | With such options discovery and the transport find the same payload |
| `Coap.LongValueMistaken` | discovery/coiot.go:161-194 | A message with a 256-byte value whose payload discovery misplaces |
| `Coap.Gen1Payload` | gen1/coiot.go:248-275 | Finds the first 0xFF byte behind the header, or reports that there is none |
| `Coap.Gen1AgreesIffNoMarkerByte` | gen1/coiot.go:262-275 | The first-0xFF search finds the payload if and only if no token or option byte is 0xFF |
| `Base64.EncodeLora` | lora/lora.go:204-238 | The loop over three-byte groups computes the encoding that the lemmas below are about |
| `Base64.EncodeTransport` | transport/websocket.go:488-508 | The transport's encoder, which does not mask the top six bits, gives the same string |
| `Base64.EncodedLength` | lora/lora.go:204-238 | The encoding has 4 * ceil(n / 3) characters, as in section 4 of RFC 4648 |
| `Base64.IndexOfIsInverse` | lora/lora.go:594-598 | The lookup table inverts the alphabet and knows no other character |
| `Base64.DecodeBase64` | lora/lora.go:577-638 | The decoder stays in bounds on every string; a negative length is an outcome of its own |
| `Base64.FillBuffer` | lora/lora.go:600-637 | The nested loops fill the buffer as block-by-block decoding does |
| `Base64.NegativeLengthIffBarePadding` | lora/lora.go:582-592 | The length computed is negative for exactly two inputs, one and two padding characters |
| `Base64.RoundTrip` | lora/lora.go:577-638 | Decoding undoes encoding for every byte string, with and without padding |
| `Base64.EncodeInjective` | lora/lora.go:204-238 | No two byte strings share an encoding |
| `Subnet.NextIp` | discovery/identify.go:396-408 | The loop with byte-wise carry computes the next address in a fresh copy |
| `Subnet.NextAddsOne` | discovery/identify.go:396-408 | On any number of bytes that is plus one, modulo the size of the address space |
| `Subnet.MaskRounds` | discovery/identify.go:372-383 | Masking byte by byte rounds the address down to its network, and filling gives the network's last address |
| `Subnet.ContainsIsBlock` | discovery/identify.go:386-386 | The byte-wise membership test holds exactly on a block of consecutive addresses |
| `Subnet.GenerateSubnetAddresses` | discovery/identify.go:360-393 | For every prefix length of at least 1: terminates and returns, ascending and once each, exactly the addresses strictly between network and broadcast, hence size - 2 of them when there are any |
| `Subnet.WalkNetwork` | discovery/identify.go:385-391 | The enumerating loop from the network address on |
| `Subnet.LeavesIffPrefix` | discovery/identify.go:386-386 | The walk ever leaves the network if and only if the prefix is not empty: a /0 network is walked forever |
| `RateLimiter.Interval` | cloud/client.go:320-327 | A second divided by the rate, rounded down to a tick; a rate that is not positive counts as one per second |
| `RateLimiter.Limiter.Wait` | cloud/client.go:330-348 | One wait, for every clock reading and context: what it returns and the last call it leaves |
| `RateLimiter.GrantsAreSpaced` | cloud/client.go:330-348 | In every run grants are at least an interval apart |
| `RateLimiter.WindowBound` | cloud/client.go:312-348 | Any window of w ticks holds at most w / interval + 1 grants |
| `RpcBatch.DistinctIffBelow` | rpc/response.go:146-168 | Comparing through 64-bit floats confuses no two ids below a bound if and only if the bound is at most 2^53 + 1 |
| `RpcBatch.SmallIsExact` | rpc/response.go:171-211 | Integers up to 2^53 survive the conversion |
| `RpcBatch.GetById` | rpc/response.go:135-142 | Returns the first matching response, or none |
| `RpcBatch.RequestBuilder.NextId` | rpc/request.go:111-113 | The counter plus one, modulo 2^64 |
| `RpcBatch.FindsTheAnswer` | rpc/batch.go:108-117 | With exact ids, each once, the search finds the reply with the id wherever it stands, and none if there is none |
| `RpcBatch.PastTheBoundAnswersCross` | rpc/response.go:146-168 | A batch past 2^53 whose second request gets the first one's answer |
| `BtHome.ParseBTHomeData` | discovery/ble.go:401-429 | The loop terminates, stays in bounds on all inputs and computes the parse that the lemmas below are about |
| `BtHome.ParseReadsLastValues` | discovery/ble.go:401-464 | Parsing the bytes of any objects yields each kind's last value, little-endian and signed as the kind has it, and a cut-off object after them changes nothing |
| `BtHome.SplitCovers` | discovery/ble.go:411-426 | Any bytes are the serialisation of some objects and a cut-off one |
| `BtHome.SplitIsUnique` | discovery/ble.go:411-426 | And of only one such sequence |
| `BtHome.ParseIsSummary` | discovery/ble.go:401-464 | The parser fails exactly on no data and encrypted data; otherwise it yields each kind's last value in that sequence |
| `StagedRollout.Rollout.GetStatus` | firmware/firmware.go:654-675 | At any moment successes and failures add up to the devices completed |
| `StagedRollout.CountsSum` | firmware/firmware.go:667-673 | The two counters split the results |
| `ProvisioningTasks.StepGrows` | integrator/provisioning.go:185-395 | Every operation keeps the invariant of every task ever created, which never returns to pending and never leaves completed or failed |
| `ProvisioningTasks.RunGrows` | integrator/provisioning.go:185-395 | So does every run, with tasks cancelled, deleted and recreated at any point |
| `ProvisioningTasks.EveryTaskAddsUp` | integrator/provisioning.go:243-306 | In every run: at most one execution per task, counters that add up to the devices processed, a result for exactly their ids, each the outcome of the id's last device, and failed as end status exactly if some failed and none succeeded |
| `ProvisioningTasks.CancelHoldsIffPending` | integrator/provisioning.go:367-382 | A cancel that is accepted lasts in every continuation if and only if the task had not begun; a running execution goes on and overwrites it |
| `ProvisioningTasks.ProvisioningTask.Execute` | integrator/provisioning.go:258-306 | The loop, whatever cancels come between: the progress is that of the devices processed before the context ended, and the status theirs |
| `ProvisioningTasks.ProvisioningTask.Cancel` | integrator/provisioning.go:376-381 | Accepted exactly for pending and running tasks |
| `Schedule.BuiltRuleParses` | gen1/settings.go:873-914 | A built rule parses back if and only if hour and minute have two digits, the day mask fits and the action has no dash; otherwise it is refused, never misread |
| `Schedule.RuleNormalises` | gen1/settings.go:882-914 | Rebuilding any accepted rule gives one that parses to the same values, except that the relay index becomes zero |
| `Schedule.RuleKeepsEntry` | helpers/schedule.go:154-215 | A rule gives back time, day list and action if and only if hour and minute have two digits, every day is a weekday and the action sets or toggles |
| `Schedule.PrintedTimeParses` | helpers/schedule.go:113-140 | A printed time parses back if and only if it is a time of day; otherwise it is refused |
| `Schedule.TimeNormalises` | helpers/schedule.go:113-140 | Printing an accepted time in canonical form keeps it |
| `Schedule.PrintedNumber` | gen1/settings.go:874-874 | Decimal and hexadecimal numbers printed two wide read back within the limit and are refused beyond it |
| `Schedule.SplitCounts` | gen1/settings.go:883-886 | A split has one part more than there are separators, and no part holds one |
| `Schedule.PrintDays` | helpers/schedule.go:93-99 | The appending loop prints the days that the lemmas are about |
| `Schedule.ReadDays` | helpers/schedule.go:182-190 | The reading loop yields the day list, or an error at the first character that is no weekday |
| `AccountStore.AccountManager.RemoveAccount` | integrator/accounts.go:100-122 | Likewise; removes the account and the index entries of all the devices it lists |
| `PendingClose.LossDereferencesNil` | transport/websocket.go:222-232 | A run that reaches the nil dereference: a loss while a WebSocket call waits |
| `Coap.Gen1TakesToken` | gen1/coiot.go:262-275 | A message whose token byte the first-0xFF search takes for the marker |
| `Schedule.RelayOneIsRead` | gen1/settings.go:882-914 | Rules for another relay, which parse and whose relay is lost when they are rebuilt |
| `Schedule.BrightnessBecomesOff` | helpers/schedule.go:154-215 | Entries that set the brightness come back as ones that switch off |
| `ProvisioningTasks.CancelIsOverwritten` | integrator/provisioning.go:258-306 | A run in which a cancel is accepted and the task completes all the same |
| `RpcBatch.RequestBuilder.BuildBatch` | rpc/request.go:96-108 | Whatever ids other callers draw in between, each request gets a later id than the one before until the counter wraps, its own name and its own encoded parameters, none when it has none; the first one that cannot be encoded ends the loop, its id spent |
| `RpcBatch.RequestBuilder.Execute` | rpc/batch.go:82-142 | The slots are filled for the ids actually built; errors of each stage end the call |
| `RpcBatch.MatchResponses` | rpc/batch.go:106-139 | The nested loops fill the slots that the lemmas are about |
| `RpcBatch.SlotHoldsItsAnswer` | rpc/batch.go:108-139 | Whatever exact ids the requests have, consecutive or not, slot i holds the answer to request i, and the missing-response error exactly when no reply carries its id |
| `RpcBatch.OrderDoesNotMatter` | rpc/batch.go:108-139 | Permuted replies give the same results, for any exact ids |
| `EventBus.RemovalRemovesOne` | events/bus.go:84-97 | A removal takes away exactly the subscription with the id and keeps each other one |
| `EventBus.OrderKeptIffNearEnd` | events/bus.go:88-94 | The swap keeps the order if and only if it removes one of the last two |
| `EventBus.DeliveredOnce` | events/bus.go:118-128 | An event is delivered to each matching subscription exactly once and to no other |
| `EventBus.DeliveredInListOrder` | events/bus.go:118-128 | And in the order of the list |
| `EventBus.RecordKeepsSuffix` | events/bus.go:106-116 | The shift and append keep the last historySize events |
| `EventBusRuns.RunStaysConsistent` | events/bus.go:63-213 | Over every interleaving of the critical sections of any number of publishes, subscribes, unsubscribes, clears, closes and registry operations, history, ids, list and registries stay consistent |
| `EventBusRuns.InitConsistent` | events/bus.go:44-52 | A new bus is consistent and in order, so the theorems about consistent states hold of every reachable one |
| `EventBusRuns.HistoryIsSuffix` | events/bus.go:106-116 | In every interleaving the history is exactly the last historySize events recorded since it was last emptied, in the order in which its lock was taken |
| `EventBusRuns.StaysEmptyIffNobodyLate` | events/bus.go:201-213 | A closed bus stays empty in every continuation if and only if it is empty and no publish or subscribe is past its closed check |
| `EventBusRuns.CloseEmptiesIffNobodyLate` | events/bus.go:201-213 | Closing leaves the bus empty from when it returns, in every interleaving, if and only if no publish or subscribe is past its closed check when the flag goes up |
| `EventBusRuns.PublishRacesWithClose` | events/bus.go:101-116 | A run that leaves an event in the history of a closed bus |
| `EventBusRuns.SubscribeRacesWithClose` | events/bus.go:63-80 | A run that leaves a subscription in the list of a closed bus |
| `EventBusRuns.RunKeepsNumbering` | events/bus.go:63-80 | In every interleaving ids in the list are distinct and differ from those drawn and not yet in it, and the counter never decreases |
| `EventBusRuns.IdsNeverReused` | events/bus.go:68-69 | An id drawn after any run differs from every id drawn before it, in the list or not |
| `EventBusRuns.InOrderIffGentle` | events/bus.go:88-94 | A list in subscription order stays so through a step if and only if the step removes nothing or one of the last two |
| `EventBusRuns.GentleRunsDeliverInOrder` | events/bus.go:99-128 | While every removal of a run is such, every publish copies the list in subscription order |
| `EventBusRuns.FirstHarshRemovalReorders` | events/bus.go:99-128 | The first removal that is not makes an event that every filter lets through reach its handlers in another order |
| `EventBusRuns.SwapReorders` | events/bus.go:88-94 | Three subscriptions of which the first is removed: the third is called before the second |
| `EventBusRuns.UndisturbedPublish` | events/bus.go:101-128 | With nothing in between, the sections make up the whole operation on values |
| `EventBusRuns.UndisturbedSubscribe` | events/bus.go:63-80 | Likewise |
| `EventBusRuns.UndisturbedClose` | events/bus.go:201-213 | The sections of a Close, undisturbed, are the operation on values; on a closed bus nothing begins |
| `EventBusRuns.OwnedStep` | events/handler.go:237-261 | Every critical section keeps registries tracking, and about to track or drop, only ids they drew themselves, stale ones and the zero of a closed bus notwithstanding |
| `EventBusRuns.OnlyTheOwnerDrops` | events/handler.go:251-261 | In every reachable state a subscription leaves the list only by an unsubscription of its id, by Close, or by an UnsubscribeAll of the registry that made it |
| `EventBusRuns.UnsubscribeAllCompletes` | events/handler.go:251-261 | Once an UnsubscribeAll has finished, whatever came between and whatever comes later, none of the ids its registry tracked is in the list |
| `EventBusObjects.Dispatcher.DrawId` | events/bus.go:68-68 | The atomic counter |
| `EventBusObjects.Dispatcher.AppendSub` | events/bus.go:75-77 | The section that appends, in place |
| `EventBusObjects.Dispatcher.RecordEvent` | events/bus.go:107-116 | The section that shifts the history and appends |
| `EventBusObjects.Dispatcher.Remove` | events/bus.go:84-97 | The section that removes; reports whether the id was there |
| `EventBusObjects.Dispatcher.Clear` | events/bus.go:189-197 | The section that clears; does nothing when there is no history |
| `EventBusObjects.Dispatcher.SwapClosed` | events/bus.go:202-204 | The flag is swapped at once |
| `EventBusObjects.Dispatcher.DropList` | events/bus.go:206-208 | The section of Close that drops the list |
| `EventBusObjects.Dispatcher.DropEvents` | events/bus.go:210-212 | The section of Close that drops the history |
| `EventBusObjects.Deliver` | events/bus.go:123-127 | The loop over the copy calls exactly the matching handlers, in order |
| `EventBusObjects.Dispatcher.SubscribeFiltered` | events/bus.go:63-80 | The sections of a subscribe, undisturbed |
| `EventBusObjects.Dispatcher.PublishEvent` | events/bus.go:101-128 | The sections of a publish, undisturbed; the handlers called are those of the matching subscriptions |
| `EventBusObjects.Dispatcher.Shut` | events/bus.go:201-213 | The sections of Close, undisturbed |
| `EventBusObjects.HandlerRegistry.On` | events/handler.go:48-61 | Subscribes and tracks whatever id the bus gave, zero on a closed bus included |
| `EventBusObjects.HandlerRegistry.ForgetId` | events/handler.go:238-246 | The registry's own section: the id is swap-removed from its list |
| `EventBusObjects.HandlerRegistry.Drop` | events/handler.go:237-248 | Forgets the id and unsubscribes it |
| `EventBusObjects.HandlerRegistry.DropAll` | events/handler.go:251-261 | Afterwards the list holds exactly the subscriptions whose ids were not tracked; history, counter and flag are unchanged, and nothing is tracked any more |
| `StagedRollout.HaltsIff` | firmware/firmware.go:547-590 | For every batch size: the loop is over at some point, ended or panicked, if and only if there is nothing to do, the size is not zero, or some turn finds the context over, at its head or in the delay, or the flag up; it panics exactly on a negative size whose first turn finds neither |
| `StagedRollout.ZeroSizeWaits` | firmware/firmware.go:547-590 | With batch size zero the loop stays at the first device, updates none, and ends if and only if some turn stops it |
| `StagedRollout.NegativeSizePanics` | firmware/firmware.go:562-567 | With a negative batch size the first turn panics on its slice unless it stops |
| `StagedRollout.CompletesIffUndisturbed` | firmware/firmware.go:547-594 | With a positive size the loop ends, never panics, and completes if and only if nothing disturbs any batch or the delay after it; then it has updated everything, and otherwise the whole batches before the first disturbance, which decides whether the context's end or the cancel is told |
| `StagedRollout.CancelStopsNextBatch` | firmware/firmware.go:548-562 | Once the context is over or the flag up at the head of a turn, no further batch begins |
| `StagedRollout.BatchesPartition` | firmware/firmware.go:562-567 | The batches cut the selection up in order, none empty and all but perhaps the last full |
| `StagedRollout.EndIsWholeBatches` | firmware/firmware.go:547-590 | However the loop ended, the devices updated are those of the first batches, and all of them when it completed |
| `StagedRollout.BatchUpdate` | firmware/firmware.go:259-288 | One result per device of the batch, in order |
| `StagedRollout.Rollout.TakeTurn` | firmware/firmware.go:547-590 | One turn: the checks in their order, the batch, its results, the delay |
| `PendingCalls.RunIsSafe` | transport/mqtt.go:179-197 | Over every interleaving of calls, responses, losses and closes, duplicate ids included: no send on a closed channel, no channel filed in `pending` closed twice, at most one response per channel, and a call only ever receives a response carrying its own id |
| `PendingClose.CloseUnblocksIff` | transport/websocket.go:444-479 | After Close a waiting call can go on without an answer of its own, in some continuation in which it does not give up, if and only if the transport is MQTT, or a loss was being handled already, or its channel was ready before: WebSocket's Close itself unblocks nobody |
| `PendingClose.CloseLeavesCallWaiting` | transport/websocket.go:444-479 | A run after which a WebSocket call waits on a closed transport that no sweep will reach |
| `Accounts.SecondGrantLosesEntry` | integrator/accounts.go:159-218 | A history that grants one device to two users and revokes it from the second: the first still lists it and a lookup finds nothing |
| `RateLimiter.CancelledLeavesNoTrace` | cloud/client.go:337-342 | A cancelled wait leaves no trace: without it the rest is a run still, and every other wait gets the same outcome at the same time |
| `BulkProvisioning.ProvisionBulk` | provisioning/provisioning.go:857-966 | The whole method, with the reports it collected: an error without a client factory; otherwise one truthful report per target, as many successes as targets that have a configuration and whose provisioning succeeds, counts that add up to TotalDevices, entries for exactly the targets' addresses, each the last report collected for its address |
| `StagedRollout.TargetIsShare` | firmware/firmware.go:491-497 | The target of any percentage: not negative, and within the fleet, exactly on a stated condition; the percentage rounded toward zero or one; monotone in percentage and, unless that is negative, in the fleet |
| `StagedRollout.ClampedTarget` | firmware/firmware.go:472-489 | Percentages as the constructor and the setter store them give a target within the fleet, zero only when it must be and everything at 100 |
| `StagedRollout.SelectionIsPart` | firmware/firmware.go:500-517 | Selecting panics exactly on a percentage so negative that the target is; otherwise, however the shuffle goes, the selection has the target size or the fleet's if that is smaller, and takes no device more often than the fleet has it |
| `StagedRollout.Rollout.Start` | firmware/firmware.go:520-600 | A second start is refused and changes nothing; otherwise an earlier cancel is forgotten, the results are those of the devices the walk counts, in order and in whole batches, a completed run has TargetDeviceCount of them or the whole fleet if that is less, and the flag is left as the last turn found it |
| `EventBusRuns.EachMatchingHandlerOnce` | events/bus.go:118-122 | In every reachable state the copy a publish makes has each matching handler once and no other |
| `EventBusLeftovers.CallsAreOfTheCopy` | events/bus.go:118-128 | Whatever comes between its calls, a publish calls the matching handlers of its copy, in order, and no other |
| `EventBusLeftovers.CalledAfterRemovalIff` | events/bus.go:118-128 | A handler whose subscription is out of the list can be called again if and only if some publish under way copied the list before and has not reached it |
| `EventBusLeftovers.RemovedIsDead` | events/bus.go:84-97 | Once unsubscribed an id is out of the list for good |
| `EventBusLeftovers.EmptyIsDead` | events/bus.go:201-213 | So are all ids once the list is empty with nobody past the closed check, as after Close |
| `EventBusLeftovers.HandlerRunsAfterUnsubscribe` | events/bus.go:84-128 | A run in which a handler is called after its Unsubscribe |
| `EventBusLeftovers.LeavesNoneIffSettled` | events/handler.go:250-261 | UnsubscribeAll leaves no subscription made through its registry, in any interleaving and short of registrations that begin later, if and only if none is on its way to the list and none is in the list untracked |
| `EventBusLeftovers.RunStaysAccounted` | events/handler.go:48-52 | Over every interleaving what a registry has in the list it tracks, or an operation of it under way is about to track or remove |
| `EventBusLeftovers.IdleLeavesNone` | events/handler.go:250-261 | In every reachable state, UnsubscribeAll of a registry with no registration, Unsubscribe or UnsubscribeAll under way leaves none of its subscriptions |
| `EventBusLeftovers.RegistrationSurvives` | events/handler.go:54-61 | A run in which a registration outlives a finished UnsubscribeAll |
| `PendingCalls.KeysComeFromIds` | transport/mqtt.go:268-272 | In every run the key of a call is its id's number, or, when the id has none, the number of calls without one so far |
| `PendingCalls.NumericIdsKeepNumber` | transport/websocket.go:67-81 | A numeric id is its number modulo 2^64, and exactly that number below 2^63 |
| `PendingCalls.OwnIdsAreDistinct` | transport/mqtt.go:268-272 | In every run with fewer than 2^63 calls, those that got an id of the transport's own have distinct, increasing keys, whatever the other calls' ids |
| `PendingCalls.OwnIdsAreFresh` | transport/mqtt.go:268-284 | Calls without numeric ids, fewer than 2^63 of them, have pairwise distinct keys, so each is fresh in every interleaving |
| `PendingClose.ClosedTakesNoCalls` | transport/mqtt.go:234-237 | Once closed, a transport stays closed in every continuation, takes no call and begins to handle no loss |
| `BulkProvisioning.SuccessesCountTargets` | provisioning/provisioning.go:941-958 | Under every schedule the successes reported number the targets that have a configuration and whose provisioning succeeds |
| `EventBus.UnsubscribeEachRemoves` | events/bus.go:84-97 | Unsubscribing some ids takes away exactly the subscriptions with these ids and changes nothing but the list |
| `EventBus.ForgetRemovesOne` | events/handler.go:238-246 | Forgetting an id takes it away once and keeps all others |
| `EventBus.PublishCallsMatching` | events/bus.go:101-128 | A publish on an open bus calls each matching handler once and no other, and on a closed bus none |
| `EventBus.SubscribeReturnsItsId` | events/bus.go:63-80 | The id returned is that of the subscription appended, later than all before, and zero exactly on a closed bus |
| `EventBusLeftovers.UndisturbedUnsubscribeAll` | events/handler.go:250-261 | The sections of an UnsubscribeAll with nothing in between are the operation on values, and nothing is tracked any more |
| `EventBusRuns.HistoryOfANewBus` | events/bus.go:105-117 | Whatever runs on a new bus, its history is the last events whose publishing took the history's lock since it was last emptied, as many as asked for |
| `EventBusRuns.UndisturbedRegister` | events/handler.go:48-61 | With nothing in between a registry subscribes and tracks the id it drew |
| `EventBusRuns.UndisturbedRegistryUnsubscribe` | events/handler.go:237-248 | With nothing in between a registry forgets the id and the bus drops its subscription |
| `Accounts.AddDeviceStores` | integrator/accounts.go:159-193 | After a grant a lookup yields exactly the granted record, under its user; all other records of that user, other accounts and other entries are what they were |
| `Accounts.RemoveDeviceRemoves` | integrator/accounts.go:196-218 | A revocation takes away the first record with the id and the id's entry, keeps the others in order, and changes nothing else; without such a record it changes nothing at all |
| `Accounts.AddAccountStores` | integrator/accounts.go:69-97 | An account is stored as given, its devices' entries point at it, those of devices it no longer lists go, and nothing else changes |
| `Accounts.RemoveAccountRemoves` | integrator/accounts.go:100-122 | Removing an account takes away its record and its devices' entries and nothing else |
| `Accounts.CallbackActs` | integrator/accounts.go:457-466 | A grant by callback makes a lookup yield the callback's device, offline; a revocation is one; any other action fails and changes nothing |
| `RateLimiter.UncancelledIsGranted` | cloud/client.go:330-348 | A wait is granted if and only if its context lasts or an interval has passed since the last grant when it comes |
| `ProvisioningTasks.CreatedAsAsked` | integrator/provisioning.go:185-212 | A task is created if and only if its template exists, pending, with the devices asked for and nothing done, and no other task changes |
| `ProvisioningTasks.BeginsOnlyPending` | integrator/provisioning.go:243-266 | An execution begins exactly for a pending task whose template exists, and turns it running |
| `ProvisioningTasks.ProcessLogs` | integrator/provisioning.go:279-291 | Processing a device appends its outcome to its own execution's log and touches no other task |
| `ProvisioningTasks.DeletesOnlyThat` | integrator/provisioning.go:385-395 | Deleting takes one id or template away and leaves everything else, an execution of the task included |
| `StagedRollout.CountsResults` | firmware/firmware.go:667-673 | Each counter is the number of results with that success |
| `Base64.RefusesIffForeign` | lora/lora.go:577-638 | Decoding succeeds if and only if every character is padding or of the alphabet and the string is not bare padding; a foreign character is an error of its own |
| `Base64.StandardEncoding` | lora/lora.go:204-238 | The encoding of section 4 of RFC 4648, three bytes at a time, with the two padded endings |
| `BtHome.WireFormat` | discovery/ble.go:431-464 | The bytes of each kind of object: its id, then its value with the low byte first, negative ones in two's complement |
| `Coap.WireFormat` | transport/coap.go:244-331 | The three length forms and the header, byte by byte |
| `Schedule.RuleFormats` | gen1/settings.go:873-875 | Rules and times printed in the documented formats |
| `Subnet.ByteOrder` | discovery/identify.go:396-408 | The most significant byte of an address comes first |
| `RpcBatch.SpacingFits` | rpc/response.go:171-211 | The spacing of floating-point numbers around an integer is the power of two that leaves a significand of 53 bits |
| `RpcBatch.RoundsToNearest` | rpc/response.go:171-211 | The conversion yields the nearest multiple of that spacing, of two equally near the even one |
| `RpcBatch.IdsMatchByKind` | rpc/response.go:146-168 | Comparison is symmetric; text and null ids match only themselves, numbers by their float |
| `PendingCalls.FaultsAreRecorded` | transport/mqtt.go:157-197 | A send on a closed channel, a close of a closed one and two closes of one are faults, and no fault is forgotten |
| `PendingMail.NoResponseTwice` | transport/mqtt.go:179-197 | Over every interleaving no response is received more often than it was delivered, what still waits in a channel included |
| `PendingClose.SweepsHaveCauses` | transport/mqtt.go:157-169 | In every run a transport is closed exactly after its Close, each loss observed is swept for at most once, and Close sweeps at most once, over MQTT only |
| `RateLimiter.PossibleFrom` | cloud/client.go:330-348 | The visits a wait admits: exactly those that return no earlier than they came and, unless the context ends, no earlier than an interval after the last call |
| `RateLimiter.GrantsApart` | cloud/client.go:330-348 | In every run two grants are apart by at least as many intervals as they are grants apart |
| `RpcBatch.DecodedApartIffBelow` | rpc/response.go:146-168 | Decoding keeps the ids of two replies apart if and only if they are below 2^53 + 1 |
| `ProvisioningTasks.ContextEndStops` | integrator/provisioning.go:266-277 | The context's end stops an execution with devices left and cancels its task with the outcomes so far, and otherwise changes nothing |
| `Schedule.ParsedDefaults` | helpers/schedule.go:154-215 | A parsed entry is unnamed and enabled, has weekdays only, and switches or toggles |
| `Schedule.DigitValues` | gen1/settings.go:902-905 | Hexadecimal digits are read in either case, and nothing else is a digit |
| `StagedRollout.AnySelectionPossible` | firmware/firmware.go:500-517 | Every order of the fleet is some shuffle's, so the devices that come first in any order are some selection |

## Left out

- Sockets, HTTP, the MQTT and WebSocket libraries, BLE and WiFi scanning, shell tools: only their events are modelled.
- JSON, hashing, encryption, nonces, tokens: records arrive parsed; a CoAP scan ends at the payload offset.
- Getters, setters, device and component accessors, cloud and settings endpoints, backups: no structure to prove.
- Analytics counters, fleet status and groups, discovery deduplication: they would add only easy members.
- The DevicePatternTracker, LoRa registry and message router: not part of this model.
- Weak memory effects and data races on unlocked reads, such as of the transports' connection field: steps are atomic.
- StagedRollout.Rollout.Start: requires that the loop halts, which `HaltsIff` characterises, since a run that goes on forever has no result; the callbacks are not modelled: the ending says whether the completion callback runs.
- PendingCalls.KeysComeFromIds: a call's check of the closed flag and the drawing of its id are one step; other calls drawing in between would only exchange ids.
- PendingMail.FirstEventWins: takes from the environment when contexts end and publishing fails; it says what a call can receive, not that it is scheduled.
- The WebSocket's ping channel, which Close and the loss handler each test and then close without a lock: not part of this model.
- Connection-state fields, reconnection and ping loops of the transports: only what they do to `pending` is modelled.
- Subnet.GenerateSubnetAddresses: addresses are byte sequences and prefix masks are read arithmetically (clearing low bits is rounding down), with no string formatting, no parsing of the CIDR notation, and no 4-in-16-byte special case of IPv6.
- RateLimiter.Interval: rates are reals and times are integer ticks, so floating-point rounding of the quotient is not modelled.
- RpcBatch.GetById: floats stand for integral values only, since the ids compared are integers; fractions and negative ids are not modelled.
- EventBusRuns.IdsNeverReused: the 64-bit counter's wrap-around is not modelled.
- EventBusLeftovers.CallsAreOfTheCopy: says which handlers a publish calls, not what they do; a handler that calls back into the bus is further steps, and asynchronous delivery, which has no order, is not modelled.
- EventBusObjects.Dispatcher.PublishEvent: takes its sections without interruption and returns the handlers it calls; interruptions are the matter of `EventBusRuns`.
- EventBusObjects.Dispatcher.Shut: takes its sections without interruption; interruptions are the matter of `EventBusRuns`.
- RpcBatch.RequestBuilder.BuildBatch: other callers draw between two builds; a draw between the counter's increment and the use of the id changes nothing and is not a case of its own.
- AccountStore.AccountManager.GetDevice: returns copies; that callers could change accounts and devices through the pointers they get, and the four callbacks, are not modelled.
- BtHome.ParseBTHomeData: temperature, humidity and rotation stay the scaled integers of the wire; the multiplication by 0.01 or 0.1 is left out.
- Schedule.RuleKeepsEntry: strings are sequences of bytes, so a day byte of 128 or more is one character; both readings refuse it.
- ProvisioningTasks.ProvisioningTask.Execute: takes the outcome of each device from the environment and leaves the template lookup to the state machine.
- Time stamps and durations of tasks, results and rollouts.
- 64-bit overflow of counters and lengths other than request ids.
