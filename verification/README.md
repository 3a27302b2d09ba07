# Hannah Core in Dafny

A model of the parts of Hannah Core, the middleware of a voice assistant, that
are state machines or transformations in their own right, with proofs of what
they promise. Clocks are inputs, every public call and every section under a
lock is one step, and what happens over time is stated about runs: sequences of
calls of any length.

| files | part |
|---|---|
| `ComponentRegistry`, `ComponentTracker`, `PresenceTable`, `Evictions`, `LazyExpiry`, `LazyParting` | who is connected: a registry with observers, and a presence table swept lazily and bounded by eviction |
| `StreamCounter`, `RoleStreams`, `InfrastructureFeed` | the streams of components, adapters and log collectors |
| `AlarmCalendar`, `AlarmManager`, `AlarmRuns`, `AlarmRinging` | alarms: the next occurrence, timers, runs, ringing |
| `PresenceFusion`, `PresenceTiming`, `PresenceRuns`, `PresenceTexts` | who is at home, and when that is decided |
| `LinkTokens`, `AccountLinking`, `RedemptionRuns` | codes for linking accounts |
| `Conversation`, `ConversationRuns`, `ConversationMemory` | what a conversation remembers and hands over |
| `Classification`, `DeviceClasses`, `DeviceKinds`, `TypedDevices`, `SlotValues`, `WireTexts`, `JsonTexts`, `DeviceControl`, `SlotExecution`, `IntentEffects` | devices of the v1 adapters: classification, values, writing and its echo, the old and the new way of executing an intent |
| `ConfigOverlay`, `ConfigMapping`, `EnvironmentTexts` | the environment laid over the configuration |
| `CommandFocus` | keeping of a spoken text only what is a command |
| `Options`, `Sequences`, `Text`, `Numerals` | optional values, sequences, strings, and numbers with their texts |

Objects that the program changes in place are classes here. Their methods are
proved against functions or relations on values, and the theorems about runs
are proved of these. `dafny verify dfyconfig.toml` checks everything.

## What the code does not promise

The model follows the code where it parts from its comments or from what one
would expect. Each case is a lemma.

- A stream opened on an entry that has lapsed but was not swept brings the entry
  back: `OpenedAgreesIffUnlapsed`, with a run in `LateStreamParts`. A lapsed entry
  that calls again before the sweep keeps its first sighting and host:
  `ReturnForgetsIffSwept`, with a run in `ReturnRemembers`.
- The presence table outgrows its bound when an instance enters beside as many
  pinned ones: `StepKeepsBoundIff`. Then lazy and eager sweeping can part:
  `LazyAgreesIff` says exactly when, `OverfullTableParts` gives a run.
- An adapter that announced an empty name never gives it back: `HeldAfterEndIff`,
  `EmptyNameStays`.
- A series whose every date among the next eight is skipped gets no timer until
  it is edited, another date is skipped or the program restarts:
  `SetToFirstIffScanned`, `WeeklySkippedIsNotSet`. So a restart does not always
  set the same timers: `RestartSetsTheSameIff`, `RestartSetsSkipped`.
- Skipping a date of a disabled series sets its timer, and nothing else sets one
  of a disabled alarm: `StepTidyIff`, `RunTidyIff`. When it runs out nothing rings:
  `DisabledDoesNotRing`.
- A lapsed history is readable again after a write that comes before the sweep:
  `OldMessagesReturnIff` says exactly when, `LapsedHistoryReturns` gives a run.
- A text with quotes, backslashes or characters outside printable ASCII does not
  come back from an adapter as it was written: `EchoIff`. What is sent for it is
  JSON that reads as the text all the same: `EscapeIsRead`.
- With a mapping that has keys as default, `get` descends into the default:
  `OthersKeptIff`, `MappingDefaultDiffers`.
- Two instances share a key when one component name continues another after a
  slash: `KeysShareIff`.

Two consequences of the definitions are stated besides: an eviction that takes a
present entry has taken every lapsed one (`LapsedGoesFirst`), and after a look only
pinned instances and those that called within the window are left
(`LookLeavesPresent`).

## Model

| member | source | states |
|---|---|---|
| `ComponentRegistries.ComponentRegistry.Register` | core/hannah/component_registry.py:48-55 | The entry is set for the key, the handle it displaced is returned only when it is another one, and every observer gets the event as often as it is subscribed; every observer can still rebuild the registry |
| `ComponentRegistries.ComponentRegistry.Unregister` | core/hannah/component_registry.py:57-65 | Removes the entry exactly when it still holds this very handle, and only then tells the observers |
| `ComponentRegistries.ComponentRegistry.Subscribe` | core/hannah/component_registry.py:81-88 | Snapshot and subscription are one step: from the snapshot on the listener misses nothing, even one that is subscribed more than once |
| `ComponentRegistries.ComponentRegistry.Unsubscribe` | core/hannah/component_registry.py:90-93 | Exactly one subscription of this listener is taken back, if there is one |
| `ComponentRegistries.ComponentRegistry.Notify` | core/hannah/component_registry.py:95-102 | For every observer, the last snapshot with all events since replayed equals the registry, also when it is told them more than once |
| `PresenceTable.KeysShareIff` | core/hannah/component_registry.py:142-143 | Two instances share a key if and only if they are the same or the longer component name goes on after the shorter one and a slash, and the instance id makes up for it |
| `ComponentTrackers.ComponentTracker.Seen` | core/hannah/component_registry.py:173-197 | A call enters or refreshes its instance by the rules of the lazily swept table, which the objects mirror; table and registry keep holding the same entry objects, and no other kind of registry entry changes |
| `ComponentTrackers.ComponentTracker.StreamOpened` | core/hannah/component_registry.py:199-201 | A stream is counted on the entry object, whether or not it is still in the table; the mirror holds |
| `ComponentTrackers.ComponentTracker.StreamClosed` | core/hannah/component_registry.py:203-209 | The count goes down, never below zero, and a full sweep follows at once; the mirror holds |
| `ComponentTrackers.ComponentTracker.RegisterPermanent` | core/hannah/component_registry.py:211-219 | Enters an instance that never lapses, without sweeping or evicting |
| `ComponentTrackers.ComponentTracker.Get` | core/hannah/component_registry.py:221-224 | Sweeps, then gives the entry exactly when the instance is in the table |
| `ComponentTrackers.ComponentTracker.Snapshot` | core/hannah/component_registry.py:226-244 | Sweeps, then lists every entry once, the ones seen last first, each with exactly the roles whose stream has its identity |
| `ComponentTrackers.ComponentTracker.Expire` | core/hannah/component_registry.py:246-259 | Throttled or not: drops exactly the lapsed entries from table and registry |
| `ComponentTrackers.ComponentTracker.MakeRoom` | core/hannah/component_registry.py:261-266 | The loop evicts oldest unpinned entries until there is room or none is left, and ends |
| `ComponentTrackers.ComponentTracker.Remove` | core/hannah/component_registry.py:268-271 | Entry and registry entry go together |
| `PresenceTable.TakingOldestEvicts` | core/hannah/component_registry.py:261-266 | Evicting one oldest entry after the other is an eviction as a whole: nothing pinned goes, and nothing that stays and could go is older than what went |
| `Evictions.SameEvictions` | core/hannah/component_registry.py:261-266 | Evicting to the same bound from a set of names and from a subset of it that lacks only oldest names leaves the same of the subset |
| `LazyExpiry.EvictionsAgree` | core/hannah/component_registry.py:246-266 | Evicting from the table with lapsed entries in it and from the swept one leaves the same instances present |
| `LazyExpiry.StepAgreesIff` | core/hannah/component_registry.py:173-271 | An operation keeps the agreement of the lazily swept table with the eagerly swept one if and only if it counts no stream on a lapsed entry and, when a lapsed caller nobody swept returns, there is room beside the live entries or all of them are pinned |
| `LazyExpiry.StepKeepsBoundIff` | core/hannah/component_registry.py:173-219 | A call leaves the table within its bound if and only if it enters no instance or there are fewer pinned ones than the bound beside it (for a permanent one: fewer entries) |
| `LazyExpiry.WithinBoundAgreeable` | core/hannah/component_registry.py:173-197 | While the table is within its bound no call of an instance can break the agreement |
| `LazyExpiry.LazyAgreesIff` | core/hannah/component_registry.py:173-271 | Up to any call of any run, the lazily, throttled swept tracker has after each call the same instances present, with the same version, path, streams and time of last call, as an eagerly swept one, if and only if each of these calls met the condition on one operation |
| `LazyExpiry.LazyRefinesEager` | core/hannah/component_registry.py:173-271 | And then at any later time until the next call |
| `LazyParting.OverfullTableParts` | core/hannah/component_registry.py:173-271 | A run of six calls, for any window, on which a table that outgrew its bound keeps a present instance that the eager one evicts |
| `LazyExpiry.OpenedAgreesIffUnlapsed` | core/hannah/component_registry.py:199-201 | Where that ends: opening a stream keeps the agreement if and only if the entry has not lapsed |
| `LazyParting.LateStreamParts` | core/hannah/component_registry.py:173-201 | A run of two calls, for any window, on which a late stream brings a lapsed entry back |
| `LazyExpiry.ReturnForgetsIffSwept` | core/hannah/component_registry.py:173-197 | What the agreement leaves out: a lapsed instance that calls again forgets its first sighting and host exactly when a look was due |
| `LazyParting.ReturnRemembers` | core/hannah/component_registry.py:173-197 | A run of three calls on which both tables agree but remember different first sightings |
| `LazyExpiry.PinnedStays` | core/hannah/component_registry.py:246-266 | No operation but entering it anew takes an instance with an open stream, or a permanent one, out of the table |
| `LazyExpiry.StreamingStays` | core/hannah/component_registry.py:173-271 | Over any run an instance stays in the table, with an exact stream count, as long as more of its streams were opened than closed and it is not entered anew |
| `LazyExpiry.SeenIs` | core/hannah/component_registry.py:173-197 | After a call its instance is in the table with its version, path and time of call, permanent, counted and first seen as before when it had not lapsed, and afresh when it was not there; no other entry that stays is changed |
| `LazyExpiry.PermanentIs` | core/hannah/component_registry.py:211-219 | A permanent registration makes an entry that is permanent, without streams and seen now for the first time, and changes nothing else |
| `LazyExpiry.PermanentStays` | core/hannah/component_registry.py:211-259 | From then on it is in the table and present after every later call of the run, at whatever times and windows, whoever calls, streams, is closed or evicted |
| `LazyExpiry.LooksEverySecond` | core/hannah/component_registry.py:246-259 | Over any run a call looks through the table exactly when the last look is a second ago or more: then no other lapsed entry is left, and before none goes for having lapsed |
| `StreamCounters.StreamCounter.StreamOpened` | core/hannah/grpc_interceptors.py:200-217 | Counts the stream and warns when it crowds the pool and no warning stands |
| `StreamCounters.StreamCounter.StreamClosed` | core/hannah/grpc_interceptors.py:219-225 | Counts it down and takes the warning back at 60 % |
| `StreamCounters.SaturatedIffWarnedSince` | core/hannah/grpc_interceptors.py:200-225 | The flag is set exactly when a warning was given and the total has not fallen to 60 % since |
| `StreamCounters.WarnsExactly` | core/hannah/grpc_interceptors.py:200-225 | In any run a stream is warned about exactly when it crowds the pool and since every earlier warning the total fell to 60 % of the limit |
| `StreamCounters.FillAndDrain` | core/hannah/grpc_interceptors.py:200-225 | Streams that only open and then only close, in numbers: the warning is on from four fifths of the pool until no more than three fifths are left |
| `StreamCounters.CountsRunning` | core/hannah/grpc_interceptors.py:164-225 | In any run each entry counts exactly its running handlers, and the total counts all of them, with and without an entry |
| `RoleStreams.RoleServer.RegisterRole` | core/hannah/grpc_server.py:2044-2060 | The stream gives back its former name, takes the new one, and whoever held it, and nobody else, is told to end |
| `RoleStreams.RoleServer.Cleanup` | core/hannah/grpc_server.py:2039-2042 | The end of a stream gives back its name only if it still holds it |
| `RoleStreams.CurrentIsLast` | core/hannah/grpc_server.py:2044-2060 | A stream knows the name it announced last |
| `RoleStreams.RegistryIsHolder` | core/hannah/grpc_server.py:2039-2060 | In any run the registry holds, under each name, exactly the stream that announced it last and has not given it back: a displaced stream never removes its successor |
| `RoleStreams.OneNamePerStream` | core/hannah/grpc_server.py:2044-2060 | Of two names a stream holds one is the empty name of a channel adapter |
| `RoleStreams.HeldAfterEndIff` | core/hannah/grpc_server.py:2039-2060 | After its end a stream holds a name if and only if it is the empty name of a channel adapter that it held before |
| `RoleStreams.EmptyNameStays` | core/hannah/grpc_server.py:2044-2060 | Announcing the empty name and then another, a channel adapter holds both, and the empty one after its end |
| `RoleStreams.DisplacedIsClosed` | core/hannah/grpc_server.py:2044-2060 | A stream that no longer holds the name it announced last has ended or has been told to |
| `InfrastructureFeed.FilteredReplay` | core/hannah/grpc_server.py:2210-2246 | A subscriber that gets some kinds, in snapshot and deltas, rebuilds exactly that part of the registry |
| `InfrastructureFeed.FilterTells` | core/hannah/grpc_server.py:2210-2246 | It gets exactly the entries of its kinds as they are, and each event of them as often as it happened |
| `InfrastructureFeed.CollectorFollower.OnChange` | core/hannah/log_shipping.py:85-97 | After each event the follower still publishes the right collector for all it has heard |
| `InfrastructureFeed.CollectorFollower.Publish` | core/hannah/log_shipping.py:80-83 | What is published is the address of the least collector known, or nothing |
| `InfrastructureFeed.Least` | core/hannah/log_shipping.py:80-83 | min over the names by code point: in the set, and not above any other |
| `InfrastructureFeed.Follow` | core/hannah/log_shipping.py:72-99 | From any snapshot and over any run of events the published address is that of the least instance registered at the end, or nothing |
| `InfrastructureFeed.PublishedIff` | core/hannah/log_shipping.py:72-99 | Nothing is published just when no collector is registered, else the address of one whose name is not above any other |
| `InfrastructureFeed.StrLeIff` | core/hannah/log_shipping.py:80-83 | Which name is the least: the one with the smaller character where two first differ, and a name before its continuations |
| `InfrastructureFeed.AddressIs` | core/hannah/log_shipping.py:66-69 | The published text is host, colon and port, a host with colons in brackets unless it came in them, so the last colon outside brackets is the one before the port |
| `AlarmCalendar.ComputeNextFire` | core/hannah/alarms.py:188-207 | The scan of eight days, skipping and all, gives what the specification function gives |
| `AlarmCalendar.NextFireIsFirst` | core/hannah/alarms.py:188-207 | An instant that is found is the earliest occurrence after now of all future dates, not just the scanned ones |
| `AlarmCalendar.NoneIffNothingDue` | core/hannah/alarms.py:188-207 | Nothing is found if and only if nothing is due, for a series: on the scanned dates |
| `AlarmCalendar.SetToFirstIffScanned` | core/hannah/alarms.py:188-207 | The true next occurrence of a series is found if and only if it is at most seven days away |
| `AlarmCalendar.EightDaysSuffice` | core/hannah/alarms.py:188-207 | With a real weekday and no skipped date among the scanned ones something is found |
| `AlarmCalendar.SeriesGoesOn` | core/hannah/alarms.py:188-207 | A series with a real weekday always has another occurrence, however many dates are skipped |
| `AlarmCalendar.WeeklySkippedIsNotSet` | core/hannah/alarms.py:188-207 | For every weekly series whose next date is skipped nothing is found, though it goes off the week after |
| `AlarmCalendar.StillNext` | core/hannah/alarms.py:188-253 | Computing again at any later moment before the instant gives the same instant |
| `AlarmCalendar.FiresAtItsTime` | core/hannah/alarms.py:188-207 | In microseconds: it is set to its minute of the day, on its date, or on one of its weekdays counted from a known Monday and not a skipped date |
| `AlarmManagers.AlarmManager.CreateAlarm` | core/hannah/alarms.py:109-121 | A new row without skipped dates, enabled, and its timer |
| `AlarmManagers.AlarmManager.UpdateAlarm` | core/hannah/alarms.py:123-140 | The row is replaced and its timer set anew, or cancelled when disabled; nothing for an unknown id |
| `AlarmManagers.AlarmManager.DeleteAlarm` | core/hannah/alarms.py:142-151 | Row and timer go |
| `AlarmManagers.AlarmManager.SkipOccurrence` | core/hannah/alarms.py:153-166 | A series gets the date to skip and its timer set anew; a one-off or unknown id is refused |
| `AlarmManagers.AlarmManager.FindOccurrences` | core/hannah/alarms.py:168-183 | Exactly the enabled alarms that go off on the date, of the satellite asked for |
| `AlarmManagers.AlarmManager.OnTimer` | core/hannah/alarms.py:227-240 | The alarm rings exactly if it is there and enabled; a one-off is deleted, a series set again |
| `AlarmManagers.AlarmManager.LoadAndRescheduleAll` | core/hannah/alarms.py:242-253 | The loop deletes exactly the overdue one-offs and sets every other enabled alarm |
| `AlarmRuns.StepKeepsArmed` | core/hannah/alarms.py:109-253 | Every operation keeps: each timer belongs to a row, and each enabled row has the timer the scan gave when it was last set |
| `AlarmRuns.StartsArmed` | core/hannah/alarms.py:242-253 | A manager that starts on any rows has exactly the timers the scan gives then |
| `AlarmRuns.TimersAreFirstOccurrences` | core/hannah/alarms.py:109-253 | In any run the timer of every enabled alarm is its first occurrence after the moment it was last set, computed from the calls, and there is none only when nothing was due then |
| `AlarmRuns.RunIsSeries` | core/hannah/alarms.py:209-253 | In any run in which nobody edits a series and its timer runs out only when set and due, its timer calls form a series: each was set, at the earlier one or at a restart, to the next occurrence |
| `AlarmRuns.FirstFire` | core/hannah/alarms.py:227-240 | A timer that runs out when due or later is such a run, with one fire |
| `AlarmRuns.FiresAreTimerCalls` | core/hannah/alarms.py:227-240 | Each time the timer runs out is one of these fires, in order |
| `AlarmRuns.RunFiresInOrder` | core/hannah/alarms.py:209-253 | Each fire of such a run is due after the one before was handled |
| `AlarmRuns.RunFiresAllButMissed` | core/hannah/alarms.py:188-253 | Up to what its timer is set to at the end (without one: on the dates scanned last) its fires are exactly the valid occurrences apart from those that came due after a fire, or the start, and before it was set again; restarts and runs without a fire included |
| `AlarmRuns.SetWhenHandled` | core/hannah/alarms.py:227-240 | Without a restart the next fire is set the moment the one before has been handled, so only occurrences during the handling are missed |
| `AlarmRuns.RestartSetsTheSameIff` | core/hannah/alarms.py:242-253 | A restart before its timer has run out sets an enabled alarm as it was if and only if it was set or nothing is due on the dates scanned; a one-off without a timer is deleted |
| `AlarmRuns.RestartSetsSkipped` | core/hannah/alarms.py:242-253 | The weekly series whose next date is skipped has no timer the day before and is set to the week after by a restart on that date |
| `AlarmRuns.StepTidyIff` | core/hannah/alarms.py:109-253 | A call sets the timer of a disabled alarm if and only if it skips a date of a disabled series that goes off again on the dates scanned without it |
| `AlarmRuns.RunTidyIff` | core/hannah/alarms.py:109-253 | Over any run no disabled alarm has a timer after any call if and only if none was such a skip |
| `AlarmRuns.OneOffRingsOnce` | core/hannah/alarms.py:227-240 | In any run a one-off rings at most once, and its row never comes back |
| `AlarmRuns.FoundOnItsDate` | core/hannah/alarms.py:168-207 | The date an alarm is set to is one on which it is found, and it is found on no date before that is still to come |
| `AlarmRuns.CreatedIs` | core/hannah/alarms.py:109-121 | A new alarm has an id of its own, is enabled, goes off on exactly the dates it was created for without any skips, and waits for the first of them; no other row or timer changes |
| `AlarmRuns.UpdatedIs` | core/hannah/alarms.py:123-140 | A changed alarm is what it was changed to and waits for its first occurrence, or for nothing when disabled; no other row or timer changes |
| `AlarmRuns.DeletedIsGone` | core/hannah/alarms.py:142-151 | A deleted alarm has neither row nor timer, rings at no later call of any run and never comes back; no other row or timer changes |
| `AlarmRuns.SkippedIs` | core/hannah/alarms.py:153-166 | After a skip the series does not go off on that date, goes off on every other one as before, and waits accordingly; a one-off or unknown id changes nothing |
| `AlarmRuns.RangIs` | core/hannah/alarms.py:227-240 | A timer that runs out rings exactly an enabled alarm that is there; a one-off is gone then, a series stays and waits for its next occurrence; nothing else is touched |
| `AlarmRinging.AlarmRinger.StartRinging` | core/hannah/alarms.py:258-271 | A second alarm on a ringing satellite changes nothing; otherwise the volume is kept and the first round played |
| `AlarmRinging.AlarmRinger.RingingCycle` | core/hannah/alarms.py:295-314 | One round: captured ones stay silent, others play at the next level, by announcement once the sound is broken |
| `AlarmRinging.AlarmRinger.OnPlayResult` | core/hannah/alarms.py:316-328 | Only a failure of the alarm sound on a ringing satellite marks it broken |
| `AlarmRinging.AlarmRinger.StopRinging` | core/hannah/alarms.py:330-345 | All four maps forget the satellite together, and the volume kept is commanded |
| `AlarmRinging.SessionState` | core/hannah/alarms.py:258-345 | In any ringing the level tells the parity of rounds played, the sound is broken once reported, and the volume is the one read at the start |
| `AlarmRinging.RoundsAlternate` | core/hannah/alarms.py:295-314 | In any ringing each round that is not captured sets the loud level first and then quiet and loud in turn, and plays the sound, or announces once the sound was reported broken and announcing is set up; captured rounds do nothing |
| `AlarmRinging.StopPutsBackVolume` | core/hannah/alarms.py:330-345 | Stopping commands exactly the volume read when this ringing began, however many alarms went off meanwhile |
| `PresenceFusion.PresenceManager.OnStateUpdate` | core/hannah/presence_manager.py:72-86 | The reading is noted for every source of the state, and exactly the users behind them are evaluated |
| `PresenceFusion.PresenceManager.OnBleSighting` | core/hannah/presence_manager.py:88-97 | Every BLE source of the user is fresh, and the user, if there is such a source, is evaluated |
| `PresenceFusion.PresenceManager.Tick` | core/hannah/presence_manager.py:99-107 | Every user with a source is evaluated, nobody else changes |
| `PresenceFusion.PresenceManager.RunFusion` | core/hannah/presence_manager.py:109-169 | Evaluates one user by the rules of fusion, grace and sleep; the others stay |
| `PresenceFusion.AwayWinsMeaning` | core/hannah/presence_manager.py:118-139 | Comparing the two running maxima decides away exactly when one away signal of positive confidence beats every fresh home signal |
| `PresenceTiming.PendingSince` | core/hannah/presence_manager.py:139-149 | The pending away stems from the first of an unbroken run of away evaluations |
| `PresenceTiming.AwayDecidedIff` | core/hannah/presence_manager.py:109-169 | Away is decided exactly when it was strictly stronger at every evaluation for at least the grace period; a home evaluation starts the count anew |
| `PresenceRuns.RunIsFold` | core/hannah/presence_manager.py:72-169 | Over any run of state updates, sightings and ticks the user is what the evaluations alone make of him |
| `PresenceRuns.PresenceIff` | core/hannah/presence_manager.py:72-210 | At the end of any run a user who is awake is away if and only if away was strictly stronger at every evaluation for at least the grace period up to the last, or at all of them for one who was away before |
| `PresenceRuns.SleepersStay` | core/hannah/presence_manager.py:175-210 | No run writes the presence of a sleeping or unknown user |
| `PresenceRuns.SightingIsSeen` | core/hannah/presence_manager.py:88-97 | After a sighting every BLE source of the user reads home as of now |
| `PresenceRuns.BleVerdict` | core/hannah/presence_manager.py:109-139 | A user with only BLE sources is away exactly once the last sighting is stale |
| `PresenceRuns.TicksAreStale` | core/hannah/presence_manager.py:72-139 | After the last sighting at T, whatever else is reported meanwhile, such a user is evaluated at the ticks alone, away exactly at those more than the staleness later |
| `PresenceRuns.NotAwayTooEarly` | core/hannah/presence_manager.py:72-210 | Whatever was pending and whatever is reported of others, the presence of such a user is not away before a tick later than staleness and grace after the last sighting |
| `PresenceRuns.AwayByThen` | core/hannah/presence_manager.py:72-210 | It is away once a tick is later than that by the longest time between ticks |
| `PresenceRuns.AwayInTime` | core/hannah/presence_manager.py:72-210 | So within two ticks of that moment it is away, and stays so while the user is not seen |
| `PresenceTexts.TextVerdict` | core/hannah/presence_manager.py:72-139 | From the text: a user with sources of one ioBroker state only is judged away exactly by an empty text, 0, off or false, in any case and with any space around it |
| `PresenceTexts.TextPresenceIff` | core/hannah/presence_manager.py:72-210 | Over any run such a user is away if and only if every text reported in the time looked at was one of the four, for at least the grace period up to the last evaluation |
| `PresenceTexts.HomeAtOnce` | core/hannah/presence_manager.py:72-210 | Any other text makes such a user home at once |
| `LinkTokens.LinkTokenStore.IssueToken` | core/hannah/link_tokens.py:43-58 | Prunes, replaces the owner's code in force and keeps the two maps inverse |
| `LinkTokens.LinkTokenStore.LookupToken` | core/hannah/link_tokens.py:60-70 | OK, unknown or expired; an expired code is removed; the maps stay inverse |
| `LinkTokens.LinkTokenStore.ConsumeToken` | core/hannah/link_tokens.py:72-77 | The code goes if it is there; the maps stay inverse |
| `LinkTokens.LinkTokenStore.PruneExpired` | core/hannah/link_tokens.py:84-87 | Exactly the codes that have run out go |
| `LinkTokens.IssueLeaves` | core/hannah/link_tokens.py:43-58 | Issuing leaves the new code and, of the others, exactly those that have not run out and have another owner or service |
| `AccountLinking.StoreIsLog` | core/hannah/link_tokens.py:43-87 | After any run the store holds, of the codes that have not run out, exactly those in force by the log of issues and consumptions |
| `AccountLinking.LookupOkIffInForce` | core/hannah/link_tokens.py:43-87 | Looking up says OK exactly for the newest code of its owner and service, neither consumed nor run out, asked for with its service |
| `AccountLinking.AccountLinker.LinkAccount` | core/hannah/grpc_server.py:587-616 | Links unless another user holds the account or the user has one of the service already |
| `AccountLinking.AccountLinker.RedeemLinkToken` | core/hannah/grpc_server.py:2062-2096 | Looks up, links and consumes in this order, with the refusals of the program |
| `AccountLinking.RedeemedOnce` | core/hannah/grpc_server.py:2062-2096 | A successful redemption leaves the code gone and the user holding just this account |
| `AccountLinking.RunKeepsOneToOne` | core/hannah/grpc_server.py:587-616 | In any run users and external accounts of a service stay one to one |
| `AccountLinking.AtMostOneRedeemOk` | core/hannah/grpc_server.py:2062-2096 | In any run each code is redeemed successfully at most once |
| `RedemptionRuns.RunIsLog` | core/hannah/grpc_server.py:2062-2096 | The store after any run of the system is that after the log of its calls, which the run determines |
| `RedemptionRuns.RedeemOkIff` | core/hannah/grpc_server.py:2062-2096 | In any run a redemption succeeds for a user if and only if the code is in force for the user and the service by what was issued and consumed before, the user still is there, no other user holds the account and the user holds no other one of the service |
| `RedemptionRuns.AnswerIff` | core/hannah/grpc_server.py:2062-2096 | Which of the answers a redemption gets, each if and only if: by whether the code is held and has run out, the user is there, another user has the account, and the user has another one |
| `RedemptionRuns.RedemptionLeaves` | core/hannah/grpc_server.py:2062-2096 | It links the account just on success and uses the code up just on success, when it had run out and when its user is gone; no other account or code is touched |
| `RedemptionRuns.ChangesLeave` | core/hannah/grpc_server.py:587-616 | Linking by hand is done unless someone else has the account or the user has one already; each change of users and accounts touches nothing else |
| `Conversations.FilledKeepsWhatWasSaid` | core/hannah/conversation.py:90-126 | Filling in never changes what was said, inherits no device across a named room or category and no category next to a device, and does nothing the second time |
| `Conversations.ConversationContext.FillIntent` | core/hannah/conversation.py:90-126 | The object is filled from what may be recalled now |
| `Conversations.ConversationContext.InheritAction` | core/hannah/conversation.py:128-148 | The action is inherited exactly for an unknown intent that names something; value and unit only together |
| `Conversations.ConversationContext.Record` | core/hannah/conversation.py:74-86 | Every writer first renews a lapsed context and then changes this source alone |
| `Conversations.ConversationContext.ExpirySweep` | core/hannah/conversation.py:56-69 | One pass hands over exactly the lapsed histories, each to its own source, and empties them |
| `ConversationMemory.FilledIs` | core/hannah/conversation.py:90-126 | What an intent takes over, field by field: the room when neither it nor the satellite has one, the device when besides nothing was said of device or category, the category when there is no device then |
| `ConversationMemory.WithActionIs` | core/hannah/conversation.py:128-148 | An unknown intent with a target becomes the last action; value and unit come together, only when it has no value and there is one |
| `ConversationRuns.SomeBeginning` | core/hannah/conversation.py:71-86 | Every log with a refresh has a conversation that is going on at its end |
| `ConversationRuns.MemoryIsConversation` | core/hannah/conversation.py:71-239 | After any run the memory is what the current conversation alone made of nothing |
| `ConversationRuns.RecallIsConversation` | core/hannah/conversation.py:71-239 | What is read at any time comes only from writes linked to then by refreshes at most the time to live apart; otherwise nothing is remembered |
| `ConversationMemory.MemoryTells` | core/hannah/conversation.py:150-239 | By position in the log and per topic (room, device, category, action with value and unit, clarification, small talk): the memory is what the last event of the current conversation that spoke of the topic said, and blank if none did |
| `ConversationMemory.RecallTells` | core/hannah/conversation.py:71-239 | So is what is recalled within the time to live of the last refresh; later everything is blank |
| `ConversationMemory.FollowUpActs` | core/hannah/conversation.py:128-166 | A room alone, said in time, is given the name, value and unit of the last device intent of the conversation |
| `ConversationMemory.RecordedMessages` | core/hannah/conversation.py:207-231 | Every exchange is recorded as two messages, the user first, every spoken text as one of the assistant, and nothing else is |
| `ConversationRuns.PushAllConserves` | core/hannah/conversation.py:207-231 | A bounded deque loses only from its front, and only when full |
| `ConversationRuns.MessagesConserved` | core/hannah/conversation.py:56-69 | In any run every message is, in order and exactly once, pushed out, handed over or still in the history, which keeps its bound |
| `ConversationRuns.HandedOverOnce` | core/hannah/conversation.py:56-69 | What the callback received is, in order, exactly the messages that left by being handed over |
| `ConversationRuns.HistoryIsRecent` | core/hannah/conversation.py:56-86 | After any run the history is the last messages, as many as there is room for, since the last sweep that found the conversation lapsed |
| `ConversationRuns.HistoryHeldIff` | core/hannah/conversation.py:56-86 | It is empty if and only if there is no room or every message came before such a sweep |
| `ConversationRuns.OldMessagesReturnIff` | core/hannah/conversation.py:74-86 | A conversation reads messages from before its beginning if and only if its own leave room and one was recorded before that no sweep has found lapsed; otherwise it reads its own only |
| `ConversationRuns.LapsedHistoryReturns` | core/hannah/conversation.py:74-86 | An instance: a write after the lapse and before the sweep makes an old message readable again |
| `Numerals.DecimalTextParses` | core/hannah/iobroker.py:1235-1251 | The text of a fraction reads back as that fraction |
| `Numerals.HundredMinusIs` | core/hannah/legacy_devices.py:118-120 | An inverted position in numbers: the two values have one scale and add up to 100 |
| `SlotValues.EscapeGrows` | core/hannah/iobroker.py:691-704 | A text is sent as it is if and only if it has no character that json.dumps escapes |
| `SlotValues.ColorEchoes` | core/hannah/device_control.py:41-51 | Every 24-bit colour survives its hex form |
| `SlotValues.NumberEchoes` | core/hannah/device_control.py:41-51 | Every number survives its text, on inverted positions too |
| `SlotValues.EchoIff` | core/hannah/legacy_devices.py:89-121 | Reading back what was written gives the written value, always for booleans, numbers, 24-bit colours and inverted positions, and for a text if and only if nothing in it is escaped |
| `WireTexts.NumberRead` | core/hannah/legacy_devices.py:89-120 | Digits read as their number on every numeric slot, as 100 less it on an inverted position |
| `WireTexts.FractionRead` | core/hannah/legacy_devices.py:89-120 | So do fractions, which add up to 100 with what is kept of an inverted position |
| `WireTexts.SwitchReadsNumber` | core/hannah/legacy_devices.py:102-105 | A switch is on for every whole number but zero |
| `WireTexts.SwitchReadsWord` | core/hannah/legacy_devices.py:96-105 | Quoted words switch on if they are true, 1 or on in any case |
| `WireTexts.TextRead` | core/hannah/legacy_devices.py:96-107 | A text slot keeps digits and what is between quotes |
| `WireTexts.ColorRead` | core/hannah/legacy_devices.py:108-116 | A colour is the last 24 bits of a number or of hex digits after a number sign |
| `WireTexts.NothingRead` | core/hannah/legacy_devices.py:93-95 | Nothing and null are no value on any slot |
| `WireTexts.FloatRead` | core/hannah/legacy_devices.py:89-120 | A float reads as itself on a number, as on unless it is zero on a switch, in words on a text, cut to 24 bits of its whole part as a colour |
| `WireTexts.NumberSent` | core/hannah/device_control.py:41-51 | A whole number is written in digits, as 100 less it for an inverted position |
| `WireTexts.FractionSent` | core/hannah/device_control.py:41-51 | A fraction is written with its point, for an inverted position as what adds up to 100 with it |
| `WireTexts.ColorSent` | core/hannah/device_control.py:41-51 | A colour is written as a number sign and six hex digits that read back as it |
| `JsonTexts.EscapeIsRead` | core/hannah/iobroker.py:691-704 | Whatever its characters, a text written into a string in JSON is read out of it as it was, by the rules of RFC 8259 |
| `JsonTexts.WordsReadBack` | core/hannah/device_control.py:41-51 | So what is sent for a text is a string in JSON that reads as the text |
| `WireTexts.TakesIff` | core/hannah/typed_devices.py:55-78 | A slot takes just the values that slots of its kind hold |
| `WireTexts.Mismatches` | core/hannah/typed_devices.py:55-78 | No Boolean is taken for a number or a colour, and nothing else for a Boolean |
| `TypedDevices.DeviceRegistry.Replace` | core/hannah/typed_devices.py:217-243 | The devices of one origin are exchanged, those of the other stay, and the index is again exactly the v1 states |
| `TypedDevices.DeviceRegistry.ApplyStateUpdate` | core/hannah/legacy_devices.py:123-134 | A known state sets its slot to the normalized value, an unknown one changes nothing |
| `TypedDevices.SetValueSets` | core/hannah/typed_devices.py:246-253 | Setting a value changes that value and nothing else |
| `TypedDevices.SetValueKeepsIndexed` | core/hannah/typed_devices.py:284-290 | The index state to slot stays exact |
| `TypedDevices.ReplacedIs` | core/hannah/typed_devices.py:217-243 | After a replacement an id stands for the first device of the list with that id that has an id, a name and a room, under the new origin, and else for the device of another origin that had it |
| `DeviceControl.DeviceController.SetSlot` | core/hannah/device_control.py:72-107 | The checks in their order; what passes is sent in the form of its origin and kept, what does not leaves everything as it is; no waiter is left |
| `DeviceControl.DeviceController.WriteV2` | core/hannah/device_control.py:120-136 | The waiter is registered before sending and never left behind |
| `DeviceControl.EchoKeepsRegistry` | core/hannah/device_control.py:72-107 | Once a write went out, the adapter's echo of the text that was sent leaves the registry as it is if and only if nothing in the text was escaped |
| `Classification.ResolveKinds` | core/hannah/legacy_devices.py:171-193 | At most one state per kind, chosen by the rules for candidates, whatever the loops' order |
| `DeviceKinds.KindIff` | core/hannah/legacy_devices.py:153-168 | Which states may carry each kind, by key, type hint and the kind of device |
| `DeviceKinds.ExcludedIff` | core/hannah/legacy_devices.py:67-76 | A setpoint is one among several exactly when one of its camel-case words, in small letters, is on the list |
| `DeviceKinds.TokensAre` | core/hannah/legacy_devices.py:72-76 | Which words a suffix has: small letters after a letter, capitals not followed by a small letter, digits; all else separates |
| `Classification.SlotIdsDiffer` | core/hannah/typed_devices.py:44-46 | Kinds have different slot ids |
| `Classification.FreeId` | core/hannah/legacy_devices.py:257-259 | The renaming loop ends, with the suffix or its least free number from 2 on |
| `Classification.NumberedInjective` | core/hannah/legacy_devices.py:257-259 | Different numbers give different names |
| `Classification.MakeSlots` | core/hannah/legacy_devices.py:249-271 | Every state becomes one slot, with pairwise distinct ids |
| `Classification.ClassifyDevice` | core/hannah/legacy_devices.py:243-278 | No state is lost, standard slots are those of the chosen states, all others are named apart from each other and from them, and the class is decided on the standard slots |
| `DeviceKinds.SlotShows` | core/hannah/legacy_devices.py:259-271 | Each slot shows its state, the value in the scale of the slot's kind, inverted only for positions, options only for modes and fan speeds |
| `DeviceKinds.SlotKindIs` | core/hannah/legacy_devices.py:171-271 | A slot is of the kind its state was chosen for, or generic by the type of its state, and bears the key as its label only then |
| `DeviceKinds.GenericName` | core/hannah/legacy_devices.py:254-260 | A generic slot is named after its suffix when no slot before it and no standard slot has that name, else with the least number from 2 on that gives a free one |
| `DeviceClasses.SlotPerState` | core/hannah/legacy_devices.py:243-278 | States and slots correspond one to one, and slot ids are pairwise distinct |
| `DeviceClasses.ByKindTells` | core/hannah/legacy_devices.py:196-221 | The table by kind tells exactly which kinds the slots have and which of them are writable |
| `DeviceClasses.OrderDoesNotMatter` | core/hannah/legacy_devices.py:171-221 | Reordering the states of a device changes neither its standard slots nor its class |
| `DeviceClasses.ClassIsSound` | core/hannah/legacy_devices.py:196-221 | Light, socket and switch have a writable ON, a cover a writable POSITION, a sensor no writable standard slot, a contact a read-only OPEN, and so on |
| `DeviceKinds.ClassIff` | core/hannah/legacy_devices.py:196-221 | Which class a device is of, each if and only if, in terms of what its slots are and can be written and of the hints |
| `SlotExecution.OneFateEach` | core/hannah/iobroker.py:587-680 | Every target is exactly one of sent, refused, unsupported or dropped, and the count is that of the sent |
| `IntentEffects.ReportIs` | core/hannah/iobroker.py:587-680 | The lists of the report hold each device exactly as often as it met their fate |
| `IntentEffects.FateIs` | core/hannah/iobroker.py:610-671 | Unsupported, refused, dropped or sent, each if and only if, by slot, trust, value and adapter |
| `SlotExecution.FateIgnoresValues` | core/hannah/iobroker.py:587-680 | What becomes of a target does not depend on slot values, so not on the writes before it |
| `SlotExecution.IoBroker.ExecuteOne` | core/hannah/iobroker.py:610-671 | One device meets its fate; of the waiters only its own key is touched, and it is left waiting only if the write went out, for the very value of the message |
| `SlotExecution.IoBroker.ExecuteSlots` | core/hannah/iobroker.py:587-680 | The loop reports the fate of each device, sends just the messages of the sent ones in order, and no confirm waiter of the call survives it |
| `SlotExecution.IoBroker.AwaitAll` | core/hannah/iobroker.py:673-679 | All registrations of the call are taken back |
| `SlotExecution.IoBroker.ExecuteStates` | core/hannah/iobroker.py:426-508 | The old loop over states reports the fate of each device, and no confirm waiter of the call survives it |
| `SlotExecution.CoverSent` | core/hannah/iobroker.py:565-680 | A cover is sent the percentage as spoken, mirrored for open and close when it is inverted |
| `IntentEffects.CoverSends` | core/hannah/iobroker.py:565-680 | In numbers: a cover is sent the percentage in digits, 100 less it just for open and close of an inverted one |
| `IntentEffects.SwitchSends` | core/hannah/iobroker.py:565-680 | On sends true and off sends false |
| `IntentEffects.BrightnessSends` | core/hannah/iobroker.py:565-680 | A lamp is sent the percentage as spoken |
| `IntentEffects.TemperatureSends` | core/hannah/iobroker.py:565-680 | A thermostat is sent the degrees as spoken |
| `IntentEffects.ColorSends` | core/hannah/iobroker.py:565-680 | A lamp is sent the hex colour in six digits |
| `IntentEffects.OthersSendNothing` | core/hannah/iobroker.py:565-680 | An intent that means no slot is sent nowhere |
| `IntentEffects.StateFateIs` | core/hannah/iobroker.py:426-508 | The old loop: unsupported, refused, dropped or sent, each if and only if |
| `IntentEffects.StateSends` | core/hannah/iobroker.py:426-508 | The old loop in numbers: true and false, the percentage, 100 less it just for open and close of an inverted cover, degrees |
| `SlotExecution.TwinsAgree` | core/hannah/iobroker.py:426-680 | A v1 cover has the same fate on both paths |
| `SlotExecution.LoopsAgree` | core/hannah/iobroker.py:426-680 | On any list of v1 covers, inverted or not, both loops send the same writes, refuse and drop the same devices and return the same count |
| `ConfigMappings.Mapping.SetPath` | core/hannah/config.py:50-57 | The walk down in place, making and replacing mappings on the way, changes the tree exactly as the override of values does, and it stays a tree |
| `ConfigMappings.Mapping.DeepCopy` | core/hannah/config.py:43 | A copy of the same value that shares no mapping with the one copied |
| `ConfigMappings.ApplyEnvOverrides` | core/hannah/config.py:34-58 | The file's configuration with every override of the environment laid over it in order; the file's own is left alone |
| `ConfigOverlay.Get` | core/hannah/config.py:77-84 | The loop gives what looking up the path gives |
| `ConfigOverlay.SplitJoinIff` | core/hannah/config.py:47 | Joining segments with a double underscore and splitting gives them back if and only if none contains one and none but the last ends in an underscore |
| `ConfigOverlay.VariableOfPath` | core/hannah/config.py:45-49 | A path is reached by the variable named after it if and only if its keys are lower-case, not empty, and come back from splitting |
| `EnvironmentTexts.PathOfName` | core/hannah/config.py:44-49 | A variable stands for the path of its parts in small letters, character by character, just when it starts with the prefix and no part is empty |
| `EnvironmentTexts.PartsOfName` | core/hannah/config.py:47 | The rest of a name is made of clean parts in just one way |
| `EnvironmentTexts.NumbersCoerced` | core/hannah/config.py:61-74 | Every whole number and every fraction is read from its text |
| `EnvironmentTexts.FlagsCoerced` | core/hannah/config.py:61-74 | true and false in any case are Booleans |
| `EnvironmentTexts.WordsCoerced` | core/hannah/config.py:61-74 | A text that starts like no number and is neither of these words stays what it is |
| `ConfigOverlay.OverridesCommute` | core/hannah/config.py:50-57 | Overrides of paths neither of which extends the other commute |
| `ConfigOverlay.OverridesCommuteIff` | core/hannah/config.py:50-57 | Overrides with scalars commute if and only if neither path extends the other or they are one and the same |
| `ConfigOverlay.ReadsBack` | core/hannah/config.py:50-84 | An overridden path reads back its value |
| `ConfigOverlay.OthersKept` | core/hannah/config.py:50-84 | A path apart from the override reads as before if it leads to a value or the default is no mapping with keys |
| `ConfigOverlay.OthersKeptIff` | core/hannah/config.py:77-84 | With a given default, no override is ever seen on a path apart from it if and only if the default is no mapping with keys |
| `ConfigOverlay.MappingDefaultDiffers` | core/hannah/config.py:77-84 | For every mapping with a key as default, an override that is seen on a path beside it |
| `ConfigOverlay.OrderFree` | core/hannah/config.py:44-57 | A prefix-free set of overrides gives the same tree in any order |
| `ConfigOverlay.EnvironmentOrderFree` | core/hannah/config.py:44-57 | The environment gives the same configuration in whatever order it lists its variables, if their paths are prefix-free |
| `ConfigOverlay.OverriddenPaths` | core/hannah/config.py:44-84 | Each path of a prefix-free set reads back its value after all of them |
| `ConfigOverlay.UntouchedPaths` | core/hannah/config.py:44-84 | A path apart from all overrides reads as in the file |
| `CommandFocus.SplitGivesSentences` | core/hannah/nlu.py:427 | A split gives non-empty pieces without space around them or boundary in them, each but the last ended by a full stop, exclamation or question mark |
| `CommandFocus.SentenceStaysWhole` | core/hannah/nlu.py:427 | A sentence on its own is not split again, so the mutual recursion with parsing is one level deep |
| `CommandFocus.SentencesOfJoin` | core/hannah/nlu.py:427-450 | Splitting sentences joined by spaces gives exactly those sentences |
| `CommandFocus.FocusOnCommand` | core/hannah/nlu.py:415-450 | The loop gives what the recursive specification gives, and ends |
| `CommandFocus.FocusKeepsCommands` | core/hannah/nlu.py:415-459 | A text changes just when a sentence after a leading command is no command or follow-up; what is left is then the leading sentence and, in order and as often as they were said, exactly the commands and follow-ups |
| `CommandFocus.FocusOfTwo` | core/hannah/nlu.py:415-459 | Of two sentences the second is dropped just when the first is one of the device commands with a target and the second neither such a command nor a question, unknown command or unknown device with one |
| `CommandFocus.FocusIsIdempotent` | core/hannah/nlu.py:415-459 | Focusing twice changes nothing more, and a text parses like its focus |

## Left out

- Transport, database, speech, language models and audio: plumbing and foreign libraries. Tables of the database are maps.
- Thread races inside a call: every call and every section under a lock is one step with one clock reading. Stopping between the unlock and the volume command is one step with it.
- Listeners that raise, and log output. The fields that only serve log lines (the last decision and the last instantaneous result of the fusion) are not kept.
- Times of day as minutes, dates as day numbers, daylight saving and the parsing of either: invalid texts never reach the model. Weekdays are numbers; numbers that are no weekday match nothing, as in the program.
- Ids of deleted alarms are not used again, as in the database.
- Ties in eviction: any oldest entry may go, while the program takes the first of them.
- ComponentTrackers.ComponentTracker.Snapshot: gives the entries themselves and not a copy of their fields, and the roles of an entry as a set, not in the order they were registered in.
- ComponentTrackers.ComponentTracker.StreamOpened: its agreement with the eager table is stated only for entries that have not lapsed, since it fails for all others.
- LazyExpiry.LazyAgreesIff: does not compare first sighting and host, which do differ (`ReturnForgetsIffSwept`), and takes every call to have a time of its own.
- AlarmRuns.RunFiresAllButMissed: speaks of alarms nobody edits meanwhile; after an edit a new series begins.
- PresenceRuns.AwayInTime: speaks of a fixed list of sources; sources that are added or removed meanwhile are not modelled.
- The ringing loop's thread and its pauses: its rounds are steps that may come at any time. Volume and capture state of a satellite are inputs.
- Random codes are inputs that have not been used before. The provider's payload of a linked account is not kept.
- `get_volume`, the home distance of a user and the notifications on a change of presence.
- Non-ASCII letters and spaces in stripping and lower-casing; underscores, exponents, infinities and other spellings in `int()` and `float()`. Floats are finite decimals, so 100 - x does not round; a float without decimals and an int are one value in intents.
- Strict distinctness of state ids in one device is required where the program presupposes it.
- `_subtype`, the grouping of a snapshot into devices, availability of v2 devices, and the labels of slots and devices beyond those that distinguish slots.
- The feedback to satellites, the list of offline devices and the sentences about unsupported devices: texts. Resolving an intent to its targets is an input of the loops.
- Confirmations that arrive while the loop waits: only that the wait leaves no registration behind.
- YAML anchors: mappings shared between two places stay shared in a deep copy, and an override then shows in both. The model's mappings are trees. Lists in the configuration are not told apart from scalars. The walk to the last key is a recursive method here, a loop in the program.
- What a single sentence means: a parameter of focusing. Regular expressions other than the one that splits sentences and the one that finds words in a suffix.
