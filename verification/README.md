# Point-of-sale bridge: a verified model

The bridge receives raw events from 7-Eleven cash registers, one stream per
register IP, and turns them into ETags for cameras. This project models that
service in Dafny and proves what its design relies on.

* **The register state machine** (`Payload`, `Register`, `Sweeps`,
  `StateMachine`). Each IP holds active transactions, 30-second groups of
  unknown events, and a pending start. An event first triggers two sweeps (stale
  groups, timed-out transactions) and is then a demarcator, a part of a
  transaction, or unknown. `Register` states one event as a function `Step` on
  values; map iteration orders are an explicit `Choice`, so every theorem about
  `Run` holds for every order. `StateMachine` holds the classes with mutable maps
  and fields; each handler is a method proved to do what `Register` says, up to
  `ProcessEvent`. The machine object is always where the messages it received lead
  (`Valid`, `EveryRegister`), registers and shared queues included, so the theorems
  about `Run` and about interleavings are theorems about the object. The five clock
  readings of one event are separate inputs. Ghost fields record which events a transaction received (`routed`), what was offered
  (`offers`, `closings`, `ns92`) and the log of all events.
* **Theorems over every run** (`Transactions`, `Invariants`, `Statuses`,
  `Timeouts`, `Abandonment`, `Windows`, `Accounting`, `Numbering`,
  `Conservation`, `Ledger`, `Determinism`, `Interleaving`, `Delivery`). Closed forms
  for what a transaction and its NS92 stream contain, conservation of events, one
  closing per lifetime, status classification, timeout bounds, sequence numbers,
  independence of iteration order and of other registers.
* **What the records say** (`Reading`, `Effects`, `Contents`, `Places`, `Bodies`).
  `Reading` is a vocabulary on the raw fields of an event (keys, texts, numbers,
  times) that no operation uses. In it the other four state, over every run, what
  one event does to a register, which transaction an event is in and why each was
  closed, and every field of every NS92 and NS91 record.
* **NS91 aggregation** (`Aggregation`, `Readback`). The step-by-step merge of
  event maps, its closed form, and decoding it again.
* **Routing and configuration** (`Routing`, `Configuration`, `Reconfiguration`,
  `Settings`, `Notices`). The table from register IPs to camera ESNs, its changes in
  separately locked steps, the settings manager and the service loop that starts,
  replays into, and stops the vendor. `Notices` states, on the raw payload, what a
  camera's last notice stores and routes.
* **The ANNT store** (`TextOrder`, `Keys`, `AnntStore`, `StoreHistories`). Per-camera
  destructive queues over one lexicographically ordered key map.

`Collections` holds shared vocabulary. `dafny verify dfyconfig.toml` checks the
project.

## Where the code differs from its comments

The model follows the code.

* RETRYING is announced (`state_machine.go:350`, `470`) but never emitted.
* An event with `metaData` or `transactionHeader` and other keys loses the other
  keys for NS91 (503-507): the conservation theorems follow every event, the
  aggregation theorems speak of the `OtherEvents` list.
* Payment, summary and footer events that arrive before the start triad become
  NS92 records (534-536); after it they do not (549-555). `Transactions.Stream`
  has both filters.
* An NS92 id is always random: the `_pos` wrapper has no top-level `metaData`
  (920-923, 945-949). `Ledger.IdentitiesOfRun` says so of every run.
* A fourth unknown group can exist after an event when a 30-second boundary falls
  between the sweep and the event (305, 629): `Windows.ThreeGroupsIff` gives the
  exact condition, `Windows.FourGroups` a run for every case where it fails.
* The end-of-cart timer is read from a second clock reading (517). A transaction
  with a running timer can be abandoned by the general timeout exactly when those
  two readings lie more than 50 seconds apart and the next sweep is in time:
  `Abandonment.AbandonedWhileTimedIff`, with a run in `Abandonment.LateTimerRun`.
* A configuration update is called atomic but runs in separately locked steps and
  sees only the first ESN of an IP (`state_machine.go:242-245`). Hence a camera
  that joined a shared register later is not removed from it by its own update:
  `Settings.UpdatedExact` gives the exact condition, `Settings.SharedRegisterSticks`
  a history where it fails.
* A register with a field that is neither text nor null, such as a numeric
  `store_number`, is stored and counted as a configuration, but its camera's update
  is dropped (`seveneleven.go:157-160`): `Configuration.ParsesIffReadable`,
  `Settings.UpdatedExact`, and a history in `Settings.NumericStoreNotRouted`.
* Deduplication reads the key `ip_address`, the vendor the last spelling of that
  field: `Configuration.IpAsWritten` says exactly when they agree,
  `Configuration.LongSMisleads` gives an entry for which they do not.
* Two registers can share the duplicate key `ip:terminal`
  (`manager.go:188`): `Configuration.DeduplicationKeepsRegisters` gives the exact
  condition, `Configuration.ColonLosesRegister` an example.
* Store keys order like their timestamps only under a condition on their digits:
  `Keys.KeyOrder` gives it exactly, `StoreHistories.FirstInFirstOutIff` says that
  deliveries are in time order for every history exactly then, and
  `StoreHistories.WidthBreaksOrder` shows a delivery out of order.
* The camera prefix does not guarantee the right camera
  (`annt_store.go:111-113`, `129`): the requested camera id is not checked
  (`handlers.go:117`), and a request for an ESN followed by an underscore and a
  time is served from that camera's items. `Keys.PrefixIsolates` gives the exact
  condition, `StoreHistories.TimestampRequestTakes` such a request.

## Model

| member | source | states |
|---|---|---|
| StateMachine.IPBasedStateMachine.ProcessEvent | internal/vendors/seveneleven/state_machine.go:291-347 | a malformed body changes nothing; any other event takes its register through exactly one specified step for some iteration orders the maps allow, offers exactly the records of that step, leaves every other register as it was, and the machine stays where its messages lead |
| StateMachine.IPBasedStateMachine.ProcessDecoded | internal/vendors/seveneleven/state_machine.go:297-347 | the same for a decoded event, with a register not seen before starting fresh |
| StateMachine.IPBasedStateMachine.EveryRegister | internal/vendors/seveneleven/state_machine.go:291-347 | every register object is in the state of a valid run of its own events, and its records in the two shared queues are exactly that run's, in order |
| StateMachine.IPBasedStateMachine.ProcessLocked | internal/vendors/seveneleven/state_machine.go:298-346 | under the lock, the two sweeps, the activity stamp and the dispatch are one step of the specification |
| StateMachine.IPBasedStateMachine.SweepRegister | internal/vendors/seveneleven/state_machine.go:301-306 | both sweeps visit exactly the stale groups and timed-out transactions, and the event enters the log |
| StateMachine.IPBasedStateMachine.DispatchEvent | internal/vendors/seveneleven/state_machine.go:308-346 | demarcators go first; the rest is routed by number, to the latest active transaction, or to the unknown window |
| StateMachine.IPBasedStateMachine.RouteEvent | internal/vendors/seveneleven/state_machine.go:318-341 | an event without a number goes to an active transaction with maximal last activity, or to none when nothing is active |
| StateMachine.IPBasedStateMachine.HandleStartTransaction | internal/vendors/seveneleven/state_machine.go:349-383 | every active transaction is closed as abandoned, in some order, and exactly one start is pending |
| StateMachine.IPBasedStateMachine.HandleEndTransaction | internal/vendors/seveneleven/state_machine.go:385-448 | with nothing active every unknown group is flushed; else all but a latest transaction are abandoned and the latest is completed or abandoned |
| StateMachine.IPBasedStateMachine.CompleteLatest | internal/vendors/seveneleven/state_machine.go:425-443 | the latest transaction closes without a requested status exactly when individual records were allowed |
| StateMachine.IPBasedStateMachine.GetOrCreateIPState | internal/vendors/seveneleven/state_machine.go:450-467 | an existing register is returned unchanged, a new one is fresh; no two registers share objects |
| StateMachine.IPBasedStateMachine.HandleTransactionEvent | internal/vendors/seveneleven/state_machine.go:469-574 | the transaction is found or opened with the pending start, and receives the event as specified |
| StateMachine.IPBasedStateMachine.OpenTransaction | internal/vendors/seveneleven/state_machine.go:473-492 | an unknown number opens a fresh transaction that takes the pending start |
| StateMachine.IPBasedStateMachine.AbsorbEvent | internal/vendors/seveneleven/state_machine.go:494-523 | activity and timer are reset, then exactly one of metaData, header and list takes the event |
| StateMachine.IPBasedStateMachine.ConfirmStartTriad | internal/vendors/seveneleven/state_machine.go:525-538 | when all three parts are there for the first time, the combined record and every pending event are offered and pending is emptied |
| StateMachine.IPBasedStateMachine.ForwardEvent | internal/vendors/seveneleven/state_machine.go:540-573 | after the triad an event that is not skipped is offered; before it, it is held back |
| StateMachine.IPBasedStateMachine.HandleUnknownEvent | internal/vendors/seveneleven/state_machine.go:595-626 | the event joins the group of its 30-second window, which is flushed once it holds a metaData and a cart event |
| StateMachine.IPBasedStateMachine.CleanupOldUnknownEvents | internal/vendors/seveneleven/state_machine.go:628-636 | exactly the groups idle for more than 60 seconds are flushed |
| StateMachine.IPBasedStateMachine.CleanupAbandonedTransactions | internal/vendors/seveneleven/state_machine.go:638-672 | exactly the timed-out transactions are closed, end-of-cart silence taking precedence |
| StateMachine.IPBasedStateMachine.IsUnknownEventGroupComplete | internal/vendors/seveneleven/state_machine.go:717-731 | true exactly when some event has metaData and some event has a cart change |
| StateMachine.IPBasedStateMachine.FlushUnknownEventGroup | internal/vendors/seveneleven/state_machine.go:733-747 | one NS91 per camera with status UNKNOWN over the group's events |
| StateMachine.IPBasedStateMachine.SendToNS91 | internal/vendors/seveneleven/state_machine.go:749-757 | one NS91 per resolved camera, in resolution order |
| StateMachine.IPBasedStateMachine.SendToNS91WithESN | internal/vendors/seveneleven/state_machine.go:759-856 | the record offered is the closed form of the transaction: body, status, number and id |
| StateMachine.IPBasedStateMachine.SendToNS92 | internal/vendors/seveneleven/state_machine.go:858-897 | one NS92 per resolved camera with consecutive 16-bit numbers |
| StateMachine.IPBasedStateMachine.SendCombinedStartTriadNS92 | internal/vendors/seveneleven/state_machine.go:899-924 | offers the combined start record |
| StateMachine.IPBasedStateMachine.SendType1BNS92 | internal/vendors/seveneleven/state_machine.go:926-950 | offers the event enriched with the current metaData |
| Register.ReceiveContinues | internal/vendors/seveneleven/state_machine.go:469-574 | an event only ever adds offers, and the counter advances by exactly what was offered |
| Sweeps.FlushGroupsState | internal/vendors/seveneleven/state_machine.go:405-408 | flushing groups in any order removes exactly them and changes nothing but the closings |
| Sweeps.TimeOutsState | internal/vendors/seveneleven/state_machine.go:647-671 | timing out in any order removes exactly those transactions and changes nothing but the closings |
| Sweeps.AbandonState | internal/vendors/seveneleven/state_machine.go:353-367 | abandoning in any order removes exactly those transactions and changes nothing but the closings |
| Transactions.TriadIffComplete | internal/vendors/seveneleven/state_machine.go:525-538 | the triad has happened exactly when a start, a metaData and a header event have all been received |
| Transactions.ReceiveSound | internal/vendors/seveneleven/state_machine.go:469-574 | every received event keeps: fields are the closed forms of the events received, pending is the filtered list until the triad and empty after, offers are exactly the stream, the counter matches |
| Invariants.StepInv | internal/vendors/seveneleven/state_machine.go:291-347 | one event keeps the invariant of a register, and a demarcator always leaves nothing active |
| Invariants.RunInv | internal/vendors/seveneleven/state_machine.go:291-347 | the invariant holds after every run and every iteration order: every active transaction is sound, unsent and under its own number, every group is of one window and incomplete, every closing is justified by its cause |
| Statuses.CartTimerIsMeaningful | internal/vendors/seveneleven/state_machine.go:695-715 | a running end-of-cart timer means the list holds meaningful content |
| Statuses.StatusesOfRun | internal/vendors/seveneleven/state_machine.go:810-824 | in every run an NS91 has no status exactly when it closes by end-of-cart silence, or at EndTransaction with a confirmed triad and meaningful content; unknown flushes are UNKNOWN, all else ABANDONED |
| Timeouts.ActiveInTime | internal/vendors/seveneleven/state_machine.go:638-672 | after an event at t every active transaction was active since t-60s and every running timer started since t-10s |
| Timeouts.TimerIffCartEndLast | internal/vendors/seveneleven/state_machine.go:496-523 | in every run the timer runs exactly when the last event of the transaction reported the end of the cart |
| Abandonment.NoAbandonWhileTimed | internal/vendors/seveneleven/state_machine.go:652-664 | in every run a transaction with a running timer was abandoned by the general timeout only if the two clock readings of its last event lie more than 50 seconds apart |
| Abandonment.GeneralTimeoutIff | internal/vendors/seveneleven/state_machine.go:652-664 | some sweep not before a given time abandons a record with a running timer if and only if the timer outlives 60 seconds of silence and that time |
| Abandonment.StepTimed | internal/vendors/seveneleven/state_machine.go:638-672 | whatever a step closes by the general timeout was due at its sweep |
| Abandonment.AbandonedWhileTimedIff | internal/vendors/seveneleven/state_machine.go:494-523 | in every run with a clock that never goes back, a next event can abandon a transaction with a running timer if and only if its last two readings lie more than 50 seconds apart and the ten seconds are not over |
| Abandonment.LateTimerRun | internal/vendors/seveneleven/state_machine.go:517-519 | a run in which that happens |
| Windows.GroupKeysAfter | internal/vendors/seveneleven/state_machine.go:600-636 | after an event the groups are those of the last three windows at the sweep and at most the window of the event |
| Windows.UnknownGroupBound | internal/vendors/seveneleven/state_machine.go:600-636 | in every run with a clock that never goes back a register has at most three groups, four only across a window boundary inside one event |
| Windows.FourGroups | internal/vendors/seveneleven/state_machine.go:600-636 | for all readings across a boundary there is a valid run that ends with them and with four groups |
| Windows.ThreeGroupsIff | internal/vendors/seveneleven/state_machine.go:600-636 | every run that ends with given readings has at most three groups if and only if no window boundary falls between sweep and event, or fewer than three windows have begun |
| Windows.FourGroupsAtNinetySeconds | internal/vendors/seveneleven/state_machine.go:600-636 | swept at 89 and dispatched at 90 seconds: not at most three |
| Accounting.BooksOfRun | internal/vendors/seveneleven/state_machine.go:349-448 | transactions opened = closed + active, groups opened = closed + stored, and commands used never exceed the start events seen |
| Accounting.StartsOfRun | internal/vendors/seveneleven/state_machine.go:353-383 | in every run a pending start means nothing is active, at most one active transaction holds a command, the triad flags say exactly that all parts are there, and triads confirmed never exceed start events |
| Numbering.NumbersOfRun | internal/vendors/seveneleven/state_machine.go:880-886 | in every run, for every transaction, active or closed: the NS92 numbers over all cameras run 1, 2, 3, … modulo 2^16, distinct below the wrap, with at most one event-level record per listed event and one for the start, and none before the triad |
| Numbering.ClosingNumbersOfRun | internal/vendors/seveneleven/state_machine.go:843-845 | in every run, for every closed transaction with one camera per record: the NS92 numbers are exactly 1..n with n at most list length + 1, all below the number of the closing NS91 |
| Numbering.CameraStreamOfRun | internal/vendors/seveneleven/state_machine.go:858-866 | in every run, for every transaction, active or closed: a camera in every fan-out receives exactly the stream of the events routed to it, each record once, in order |
| Conservation.StepConserves | internal/vendors/seveneleven/state_machine.go:291-347 | one event, whatever it closes and in whatever order, moves or adds events between places without losing or copying any |
| Conservation.EventsConserved | internal/vendors/seveneleven/state_machine.go:291-447 | in every run and every iteration order each non-demarcator event is in exactly one place, an active transaction, a group or the source of one closing, and every place keeps arrival order |
| Delivery.StreamsOfRun | internal/vendors/seveneleven/state_machine.go:502-573 | in every run the records offered by every transaction, active or closed, are exactly the stream of the events routed to it: nothing before the triad, then start, held-back and later events, each once and in order |
| Delivery.SourceListsOfRun | internal/vendors/seveneleven/state_machine.go:502-523 | in every run the event list of every transaction, group and closing is exactly the events it holds, in arrival order |
| Delivery.ClosingsReadBack | internal/vendors/seveneleven/state_machine.go:759-828 | in every run, for every NS91 sent and every open key: the body has the key exactly when a kept event has it, and gives back exactly the list of the kept events' values, all events of a group and those without metaData and header of a transaction |
| Delivery.EventsDelivered | internal/vendors/seveneleven/state_machine.go:291-447 | in every run each event is in one place, and when that is a sent NS91 that keeps it, each value the event has at an open key is in the list read back |
| Ledger.LedgerOfRun | internal/vendors/seveneleven/state_machine.go:858-897 | in every run the NS92 queue is an interleaving of the records of all closed and active transactions, each in its own order |
| Ledger.IdentitiesOfRun | internal/vendors/seveneleven/state_machine.go:966-984 | in every run no NS92 has a name-based identity |
| Determinism.RunDistinct | internal/vendors/seveneleven/state_machine.go:391-402 | with strictly increasing event times active transactions have different last activities, so the latest is unique |
| Determinism.RunDeterministic | internal/vendors/seveneleven/state_machine.go:318-442 | two runs on the same events with different iteration orders reach the same state, the same NS92 queue and the same bag of closings |
| Determinism.EmissionsDeterministic | internal/vendors/seveneleven/state_machine.go:749-897 | and the same bag of NS91 records |
| Interleaving.Independence | internal/vendors/seveneleven/state_machine.go:291-347 | for any interleaving of the events of many registers each one has the state and the records of a machine that received only its own events |
| Reading.NumberRead | internal/vendors/seveneleven/state_machine.go:952-964 | the number of an event is the text under transactionSeqNumber of its metaData object without the blanks around it, and no other non-empty text |
| Effects.OrdinaryEffect | internal/vendors/seveneleven/state_machine.go:318-346 | an event that commands no start or end goes, with a number, to the transaction of that number, opened with the pending start if need be; without one, to a newest transaction surviving the sweep, or to the group of its 30 seconds, sent and removed if it now has a metaData and a cart event; nothing else changes |
| Effects.StartEffect | internal/vendors/seveneleven/state_machine.go:349-383 | a start leaves nothing active, every surviving group as it was, and one pending start of this time |
| Effects.EndEffect | internal/vendors/seveneleven/state_machine.go:385-448 | an end leaves nothing active and no pending start; the groups stay if a transaction survived the sweep, else all are gone |
| Effects.ClosingsEffect | internal/vendors/seveneleven/state_machine.go:628-672 | whatever an event closes was over at its sweep, or a survivor that a start or end abandons, or the newest one that an end completes with its triad and abandons without, or a group that was stale, left with nothing active at an end, or completed; with the status each asks for, and for the cameras of this event |
| Places.EffectsOfRun | internal/vendors/seveneleven/state_machine.go:291-448 | in every run the last event did to the register what its fields say, in these terms |
| Places.ClosingsOfRun | internal/vendors/seveneleven/state_machine.go:349-448 | in every run whatever the last event closed was closed for one of these reasons |
| Places.NumbersPlaced | internal/vendors/seveneleven/state_machine.go:318-346 | in every run an event with a number, no start or end, is in exactly one place: the active or closed transaction of that number |
| Places.RecordsOfRun | internal/vendors/seveneleven/state_machine.go:469-574 | in every run every transaction holds the last metaData and header events and the listed events in order; once the first events complete the triad, its records are the start record and one per event sent alone, in order: each key of the event but metaData with its value, metaData exactly when the last metaData event known holds a non-null one, domain and register where the event lacks them, and no other key |
| Places.TimersOfRun | internal/vendors/seveneleven/state_machine.go:496-523 | in every run the end-of-cart timer runs if and only if the last event has neither metaData nor header and its cartChangeTrail is an object whose eventResult is the text endOfTransaction |
| Places.GroupsOfRun | internal/vendors/seveneleven/state_machine.go:595-626 | in every run a waiting group holds exactly its events in order, all of its 30 seconds, without a metaData or without a cart event |
| Places.FannedOfRun | internal/vendors/seveneleven/state_machine.go:749-866 | in every run every record goes to the cameras the register resolved to with one of its events |
| Places.CameraOfRun | internal/vendors/seveneleven/state_machine.go:858-866 | in every run in which a register always resolves to a camera, that camera gets every NS92 body of every transaction once and in order |
| Bodies.BodyMeans | internal/vendors/seveneleven/state_machine.go:759-828 | the body of any record, key by key: metaData and header exactly when non-null, CMD exactly when ended, domain and register ahead of any values of the events, the status text, and elsewhere nothing, the single value unless it is a list, or the list of all values |
| Bodies.BodiesOfRun | internal/vendors/seveneleven/state_machine.go:749-856 | in every run the NS91 queue holds, closing after closing, one record per camera in order; metaData and header are those of the last such events (none for a group), CMD is there exactly for an end with the triad, the status is the one asked for or ABANDONED without cart end and content, the number is the list length plus four modulo 2^16, and the id hashes register, store, terminal and number exactly when the metaData has all as non-empty texts |
| Bodies.Ns92Place | internal/vendors/seveneleven/state_machine.go:868-897 | the NS92 records of a transaction: one per offer and camera in order, numbered on by one modulo 2^16, namespace 92, random id, no status |
| Aggregation.MergeExtends | internal/vendors/seveneleven/state_machine.go:786-806 | merging one more key keeps the closed form, whatever keys of the event were merged before it |
| Aggregation.AggregateUnique | internal/vendors/seveneleven/state_machine.go:783-808 | there is only one map of the closed form, so key iteration order cannot matter |
| Aggregation.AggregateEvents | internal/vendors/seveneleven/state_machine.go:783-808 | the loops over events and, in arbitrary order, their keys compute the closed form |
| Aggregation.HasSignificantTransactionContent | internal/vendors/seveneleven/state_machine.go:695-715 | true exactly when some listed event has a cart, payment or footer key |
| Readback.SeparateCombine | internal/vendors/seveneleven/state_machine.go:788-805 | the wrapping of a value list can be undone for every list of values |
| Readback.AggregateReadback | internal/vendors/seveneleven/state_machine.go:783-808 | at every open key the aggregate gives back exactly the list of values the events had there, in order |
| Readback.Ns91Readback | internal/vendors/seveneleven/state_machine.go:759-828 | the same for the whole NS91 body, with its reserved and seeded keys |
| Readback.Ns91StatusKey | internal/vendors/seveneleven/state_machine.go:822-824 | the body's status key holds the record's status, or the events' own values when there is none |
| Readback.Ns91Injective | internal/vendors/seveneleven/state_machine.go:759-828 | equal bodies have equal value lists at every open key |
| Routing.AddMappingRoutes | internal/vendors/seveneleven/state_machine.go:139-160 | adding a mapping adds exactly that route |
| Routing.RemoveEsnRoutes | internal/vendors/seveneleven/state_machine.go:162-190 | removing a camera removes exactly its routes |
| Routing.RemoveSpecificRoutes | internal/vendors/seveneleven/state_machine.go:193-228 | removing a camera at some IPs removes exactly those routes |
| Routing.ReachableTablesWellFormed | internal/vendors/seveneleven/state_machine.go:123-228 | after any sequence of changes every IP's list is non-empty and without duplicates |
| Routing.ResolveIsFanOut | internal/vendors/seveneleven/state_machine.go:251-289 | a resolved list is non-empty, duplicate-free and of valid ESNs, and is exactly the valid mapped ones when there are any |
| Routing.ReachableFanOut | internal/vendors/seveneleven/state_machine.go:123-289 | whatever the configuration history, every emission has a proper fan-out |
| Routing.EsnFormat | internal/vendors/seveneleven/state_machine.go:279-289 | an ESN is valid exactly when it has eight lower-case hexadecimal digits |
| Routing.SetMappingsRoutes | internal/vendors/seveneleven/state_machine.go:123-137 | replacing the table routes each IP to its one camera |
| Routing.ReachableTablesInOrder | internal/vendors/seveneleven/state_machine.go:123-289 | in every reachable table the cameras of an IP are listed, and emissions fanned out, in the order in which they last joined it |
| Routing.EsnTable.SetIPESNMappings | internal/vendors/seveneleven/state_machine.go:123-137 | replaces the table, in one critical section |
| Routing.EsnTable.AddIPESNMapping | internal/vendors/seveneleven/state_machine.go:139-160 | the specified addition, in one critical section |
| Routing.EsnTable.RemoveESNMappings | internal/vendors/seveneleven/state_machine.go:162-190 | the specified removal, in one critical section |
| Routing.EsnTable.RemoveSpecificIPESNMappings | internal/vendors/seveneleven/state_machine.go:193-228 | the specified removal at some IPs, in one critical section |
| Routing.EsnTable.GetIPESNMappings | internal/vendors/seveneleven/state_machine.go:231-248 | the first ESN of every mapped IP |
| Routing.EsnTable.GetESNsForIP | internal/vendors/seveneleven/state_machine.go:251-277 | the resolution, with the default and invalid ESNs as fall-backs |
| Configuration.DeduplicateRegisters | internal/settings/manager.go:180-199 | keeps the first entry of every joined key |
| Configuration.DeduplicatedKeys | internal/settings/manager.go:180-199 | the result has every joined key of the input exactly once, and only entries with IP and terminal |
| Configuration.DeduplicationKeepsRegisters | internal/settings/manager.go:188-192 | every distinct register survives if and only if no two registers share a joined key |
| Configuration.NoColonUnambiguous | internal/settings/manager.go:188 | that is the case when no terminal number contains a colon |
| Configuration.ColonLosesRegister | internal/settings/manager.go:188 | with a colon a register can be lost |
| Configuration.ParsedConfigIps | internal/vendors/seveneleven/seveneleven.go:156-160 | a generated configuration that can be read yields exactly the IPs of its entries |
| Configuration.ParsesIffReadable | internal/vendors/seveneleven/seveneleven.go:156-160 | a configuration can be read if and only if every entry is null or an object whose three fields are text or null in every spelling, capitals included |
| Configuration.IpAsWritten | internal/vendors/seveneleven/ingestor.go:30-34 | for given keys, the vendor reads the IP under which an entry was kept, whatever the values, if and only if no spelling of the field's name sorts after the name |
| Configuration.AsciiIpAsWritten | internal/vendors/seveneleven/ingestor.go:30-34 | so it is when all keys are ASCII |
| Configuration.LongSMisleads | internal/vendors/seveneleven/ingestor.go:30-34 | an entry kept under one IP and routed under another |
| Reconfiguration.UpdateRoutes | internal/vendors/seveneleven/seveneleven.go:174-212 | the exact routes after an update: other cameras' unchanged, every configured IP, an unlisted IP only where the camera did not lead the list |
| Reconfiguration.UpdateNoGap | internal/vendors/seveneleven/seveneleven.go:198-209 | at every locked step other cameras keep their routes and an IP routed before and after stays routed |
| Reconfiguration.NoEmissionLost | internal/vendors/seveneleven/seveneleven.go:198-209 | an emission made during an update reaches every camera its register is routed to before and after |
| Reconfiguration.Vendor.HandleESNConfiguration | internal/vendors/seveneleven/seveneleven.go:147-172 | removal, unreadable configuration, not started, or update; with every intermediate table |
| Reconfiguration.Vendor.AtomicESNConfigurationUpdate | internal/vendors/seveneleven/seveneleven.go:174-212 | the loops compute the specified update and publish exactly the specified intermediate tables |
| Reconfiguration.Vendor.RemoveESNConfiguration | internal/vendors/seveneleven/seveneleven.go:480-492 | the camera's routes are removed in one step |
| Settings.Manager.UpdateSettings | internal/settings/manager.go:72-134 | configurations, active vendor and the running vendor's table after a notice; a malformed payload changes nothing |
| Settings.Manager.GetAllESNConfigurations | internal/settings/manager.go:162-171 | the vendor entry of every stored configuration |
| Settings.OnChange | cmd/bridge-pointofsale/main.go:69-105 | one change signal starts a vendor and replays all configurations in some order, stops it, or does nothing |
| Settings.ServiceOfRun | internal/settings/manager.go:72-134 | in every history the active vendor is set exactly when some camera is configured; a running vendor routes every readable configuration and nothing for cameras without one, shared registers included |
| Settings.UpdatedExact | internal/settings/manager.go:100-128 | a notice keeps the table equal to the configurations if and only if the camera leads the list of every register it gives up, or, when unreadable, the notice names the registers of the configuration it replaces |
| Settings.AlwaysExactIff | internal/settings/manager.go:72-134 | over every history, a running vendor's table always agreed with the configurations if and only if every notice met that condition and every start found all configurations readable |
| Settings.RoutesOfRun | internal/settings/manager.go:72-134 | over every history without shared registers and unreadable configurations, an IP is routed to a camera if and only if that camera's configuration names it |
| Settings.EmissionsOfRun | internal/vendors/seveneleven/state_machine.go:251-277 | over every such history an emission for an IP goes to exactly the cameras with a valid ESN whose configuration names it, each once, and to the fall-back camera when there is none |
| Settings.ReplayRoutes | cmd/bridge-pointofsale/main.go:92-94 | a replay in any order routes exactly the registers of the readable configurations replayed |
| Settings.ReplayExact | cmd/bridge-pointofsale/main.go:92-94 | a replay agrees with the configurations if and only if all of them can be read |
| Settings.ReplayRebuilds | cmd/bridge-pointofsale/main.go:92-94 | after such a history a restart in any order rebuilds the very table the updates had built |
| Settings.ReplayOrderIrrelevant | cmd/bridge-pointofsale/main.go:92-94 | two replay orders agree on every route, even with shared registers |
| Settings.SharedRegisterSticks | internal/vendors/seveneleven/state_machine.go:242-245 | a history in which a camera stays routed for a register it no longer names |
| Settings.NumericStoreNotRouted | internal/vendors/seveneleven/seveneleven.go:157-160 | a history in which a configured register is not routed |
| Notices.DeduplicatedRead | internal/settings/manager.go:180-199 | the entries kept are, in order, those with texts for IP and terminal whose joined text no earlier entry has |
| Notices.GeneratedRead | internal/settings/manager.go:78-96 | a payload makes a configuration if and only if its register list holds an object with texts for IP and terminal; the configuration has the vendor name, port 6334 and the first entry of every IP and terminal |
| Notices.StoredOfRun | internal/settings/manager.go:72-134 | after every history what is stored for a camera is what its last readable notice says, and nothing when there was none |
| Notices.ActiveOfRun | internal/settings/manager.go:109-128 | after every history the active vendor entry is the one of the notice that ended the last time without configurations |
| Notices.RunningOfRun | cmd/bridge-pointofsale/main.go:69-105 | a signal makes the vendor run exactly when a configuration is stored and keeps a running one as it is; a notice starts and stops nothing, an unreadable one changes nothing |
| Notices.RoutedOfRun | internal/vendors/seveneleven/seveneleven.go:147-212 | after every history a running vendor routes to a camera every IP it reads in the first entries of the camera's last readable notice, if it can read them all |
| Notices.RoutedExactlyOfRun | internal/vendors/seveneleven/seveneleven.go:147-212 | over every history without shared registers and unreadable configurations it routes exactly those to that camera |
| Notices.NoticeRoutes | internal/vendors/seveneleven/seveneleven.go:147-212 | a notice to a running vendor changes the routes of its camera alone: to the IPs of its first entries and, if it has any, what was routed to the camera behind another one; or not at all when the vendor cannot read an entry |
| Notices.PlainReads | internal/vendors/seveneleven/ingestor.go:30-34 | with keys without capitals and texts or null in the three fields, the vendor can read every entry and reads the IPs that are written |
| Notices.PlainRegister | internal/vendors/seveneleven/ingestor.go:30-34 | from such an entry it reads store, terminal and IP each from its own key |
| Keys.KeyOrder | internal/core/annt_store.go:80 | within a camera, key order is time order if and only if the digit counts agree or the shorter number is smaller digit by digit; times before 1970 the other way round |
| Keys.KeyOrderSameWidth | internal/core/annt_store.go:80 | with equally many digits keys order by time, then by id |
| Keys.NineteenDigits | internal/core/annt_store.go:80 | a count has 19 digits exactly from 10^18 to below 10^19 |
| Keys.DigitsRead | internal/core/annt_store.go:80 | the digits of a key read back as the number |
| Keys.PrefixInterval | internal/core/annt_store.go:112-113 | keys with a prefix are contiguous, so seeking and stopping at the first other key sees all of them |
| Keys.PrefixSelects | internal/core/annt_store.go:112-113 | exactly which keys the prefix of any requested camera id selects |
| Keys.PrefixIsolates | internal/core/annt_store.go:112-113 | the prefix of any requested id selects a camera's keys exactly when it is that camera, for all times and ids, if and only if the request is not the ESN followed by an underscore and a time |
| Keys.ServedSameTime | internal/core/annt_store.go:112-113 | a request with underscores is served from items of one camera and one time |
| Keys.UnderscoreLeaks | internal/core/annt_store.go:112 | with an underscore in the stored ESN itself, another camera's prefix selects its keys |
| Keys.SplitRecoversCamera | internal/api/handlers.go:317-319 | splitting a key recovers the camera |
| Keys.KeyInjective | internal/core/annt_store.go:80 | equal keys mean equal camera, time and id |
| Keys.ResolvedEsnsPlain | internal/vendors/seveneleven/state_machine.go:279-289 | every camera an emission is resolved to has an ESN without underscore |
| AnntStore.CollectOldest | internal/core/annt_store.go:113-134 | a scan returns ascending keys of decodable items, as many as the limit allows, all before whatever decodable is left |
| AnntStore.PayloadsServed | internal/core/annt_store.go:113-134 | what a scan returns is, in ascending key order, the data under the first keys with the prefix that hold an item, as many as the limit allows |
| AnntStore.ANNTStore.StoreANNT | internal/core/annt_store.go:77-96 | the item is under its key, replacing one with the same key |
| AnntStore.ANNTStore.Scan | internal/core/annt_store.go:113-134 | the iterator loop returns the data under the first keys with the prefix that hold an item, in ascending key order |
| AnntStore.ANNTStore.GetANNTStructuresForCamera | internal/core/annt_store.go:101-154 | returns, in ascending key order, the data under the first keys of the camera's prefix that hold an item, removes exactly those, and records exactly these deliveries |
| AnntStore.ANNTStore.GetANNTStructuresReadOnly | internal/core/annt_store.go:158-200 | returns the same and changes nothing |
| AnntStore.ANNTStore.DrainAllANNTs | internal/core/annt_store.go:204-251 | returns the data of all decodable pending items in ascending key order and removes every pending key and no other |
| AnntStore.ANNTStore.CleanupByAge | internal/core/annt_store.go:280-320 | removes exactly the decodable items older than 72 hours |
| AnntStore.ANNTStore.GetESNsWithData | internal/api/handlers.go:295-328 | the cameras named by the keys in key order, up to ten |
| StoreHistories.HistoryConserves | internal/core/annt_store.go:77-320 | over every history, from any database, items stored are exactly the pending, delivered, expired, drained and overwritten ones |
| StoreHistories.ExactlyOnePlace | internal/core/annt_store.go:77-320 | with distinct keys each stored item is in exactly one place, once, and nothing is overwritten |
| StoreHistories.ScanSees | internal/core/annt_store.go:111-113 | in every reachable store, exactly which items the scan behind any request sees |
| StoreHistories.ScanIsolates | internal/core/annt_store.go:111-113 | it sees exactly the camera's items when the request is no stored camera's ESN followed by a time |
| StoreHistories.FetchIsolated | internal/core/annt_store.go:101-154 | under that condition a fetch delivers the camera's oldest keys up to the limit and changes nothing for other cameras |
| StoreHistories.CrossingTakes | internal/core/annt_store.go:101-154 | without it, a fetch takes another camera's item |
| StoreHistories.TimestampRequestTakes | internal/api/handlers.go:117-133 | a request for an ESN, an underscore and an item's time takes that item |
| StoreHistories.CleanUpExact | internal/core/annt_store.go:280-320 | an item survives the cleanup if and only if it is at most 72 hours old |
| StoreHistories.DrainExact | internal/core/annt_store.go:204-251 | a drain leaves nothing |
| StoreHistories.DeliveriesInTimeOrder | internal/core/annt_store.go:77-154 | in every history in which a camera's items are stored in time order and their times sort as text, the deliveries to any requested id are in time order |
| StoreHistories.ServedUnique | internal/core/annt_store.go:113-134 | there is only one such list |
| StoreHistories.ReturnedInTimeOrder | internal/core/annt_store.go:101-154 | the list a fetch returns holds the data of stored items of the camera in time order, none older left waiting, when they are stored in time order and their times sort as text |
| StoreHistories.FetchOutOfOrder | internal/core/annt_store.go:101-154 | a fetch that returns two items whose times do not sort as text delivers the later one first |
| StoreHistories.FirstInFirstOutIff | internal/core/annt_store.go:77-154 | for items stored in time order, every history that stores them delivers in time order if and only if their times sort as text |
| StoreHistories.NineteenDigitsSort | internal/core/annt_store.go:80 | times from September 2001 on sort as text |
| StoreHistories.WidthBreaksOrder | internal/core/annt_store.go:80 | with timestamps of different widths they need not be |
| StoreHistories.EsnsWithData | internal/api/handlers.go:295-328 | the cameras listed all have pending items, each once, and in the order of their first keys, and none is missing when fewer than ten are listed |

## Left out

- The HTTP servers and handlers, loggers, the Lua driver, the simulator and `main` beyond the loop above: input and output.
- Simulation mode: which recorded file a simulated register replays (`seveneleven.go:214-478`) does not reach the routing table or the queues.
- A state machine without a processor (`state_machine.go:836`, `879`): `New` always sets one. `Start` is taken to succeed, and `New` to parse its own settings.
- The tail of `handleTransactionEvent` (576-590): `ProcessEvent` never passes it an end demarcator; the model's handler is stated under that guard.
- Drops when a queue is full (852-855, 893-896): the theorems speak of what is offered; what a full queue accepts is a subsequence.
- `ProcessEvent` resolves a register's cameras several times per event; the model takes one table for one event, so a configuration change inside an event is not modelled. A change between two events is.
- SHA-1: a name-based UUID (section 5.5 of RFC 9562) is kept as its name, a random one as `Random`; that a random one is unique is not modelled.
- The creation time of an ETag, and log output.
- JSON text: events and payloads start decoded, with number literals kept as their text. A malformed body or payload is modelled; `null` decodes to the empty map.
- Wall-clock times are natural numbers of nanoseconds since 1970; the window key is the number whose decimal text the code uses.
- Replay and settings updates that run at the same time: the model orders them. Each table change inside an update is a step of its own in `UpdateNoGap`.
- Coalescing of change signals (`manager.go:173-178`): histories contain any number of signals at any point.
- Badger's own storage, its transaction size limits, value-log collection and `cleanupBySize`: sizes come from a library that is not part of this model. `DrainAllANNTs` is one step.
- The workers that copy queued ETags into the store (`seveneleven.go:290-358`): the state machine ends at its queues, the store begins at `StoreANNT`.
- The idle timer and cleanup goroutine of the ingestor, the rate limiter, the vendor manager and factory.
- Routing.EsnTable.SetESN: one assignment; the property is in `Routing.ResolveIsFanOut`.
