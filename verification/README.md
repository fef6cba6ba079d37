# Verified models of cliffhanger's stateful cores

cliffhanger is a framework for smart-home edge applications.  This project models the parts of it
that keep state under crashes, failing writes, timers and churn, and proves what they promise over
whole runs.  Verify everything with `dafny verify dfyconfig.toml`.

| file | models |
|---|---|
| `Json.dfy`, `JsonLaws.dfy`, `JsonTorn.dfy` | the JSON texts written and read by the storage; they read back, and torn ones are unreadable |
| `Models.dfy`, `KeyOrder.dfy` | configuration models, how they are written, and what decoding into a model that already holds something does |
| `ConfigModels.dfy` | the telemetry block and the manifest as such models |
| `Storage.dfy` | the configuration storage: save with backup, load with fallback, interruption after any character or before the sync |
| `ConfigPoll.dfy` | the cloud configuration poller and its one-shot timers |
| `TelemetryWindow.dfy` | the validity window of telemetry, its timer and its persisted configuration |
| `Counters.dfy`, `Fingerprint.dfy` | the counters behind threshold-based emission, and the JSON text that tells their data apart |
| `Meter.dfy`, `MeterManager.dfy`, `MeterLives.dfy` | the virtual electricity meter, the services it puts on the adapter's things, and a device's history inside the manager |
| `Things.dfy` | a thing's service index, inclusion report and topic lookup |
| `Lookup.dfy`, `Orders.dfy` | the adapter's lookup by topic over all of its things, in the orders a map may be visited |
| `Registry.dfy`, `SharedAddresses.dfy` | the adapter: seeds, persisted records, registered things and addresses, unique or shared |
| `AdapterState.dfy` | the adapter's state file under failing saves and restarts |
| `Database.dfy` | buckets and domains over one ordered store |
| `Observer.dfy` | the prime observer's component cache |
| `ErrorHook.dfy` | the error report's ring buffer |
| `LogManager.dfy` | log levels with a revert deadline |
| `Migration.dfy` | the chain of configuration migrations |
| `Wrappers.dfy`, `Saves.dfy` | optional values and lookups; what becomes of a save |

Each core that changes state in place is a class.  The `ensures` of its methods tie the new state to
a function of the old one, and the theorems about runs are about those functions, one event per
section run under the lock.  Inputs the programs get from outside are parameters: clock readings,
jitter, the outcome of a save, of a factory call or of a fetch, and the number of disk steps a save
gets to do.  Loops over Go maps pick the next element arbitrarily, so their contracts hold for every
iteration order.

Where the code and its comments disagree the model follows the code: one energy recalculation
accounts for up to two periods (`adapter/service/virtualmeter/manager.go:343`), where the comment
above the function says one.

Some promises do not hold for every input, and the project states exactly when they do:

- `SavedModelComesBackIff`: what a saved model leaves out of a record or dictionary, at any depth and in
  every element of a list, comes from the defaults.  Telemetry saved as off loads as on when the defaults
  file turns it on (`DisabledComesBackEnabled`), and a translation taken out of the manifest comes back
  (`RemovedLabelComesBack`).
- `NextSaveIsSafeIff`: an interrupted save after another may lose both files (`TwoCutsLose`), and so may the
  first save of all (`FirstSaveCanFail`).
- `PromiseHoldsIff`: the end of a request that was in flight when a report came replaces the report's timer by
  the default interval.
- `InactiveSpellIsCountedIff`: activating a device does not bring it up to date, so its first recalculation
  counts the inactive spell before it.
- `ResetIsAloneIff`, `SameCounterIff`: names with NUL let one event's counters meet another's.
- `BootEstablishesInvariantIff`, `FailedEnableKeepsTimerIff`, `FailedSetValidityKeepsTimerIff`: memory changes
  before a save that fails (`FailedSavesPart`); `FailuresHeal` says what puts it right.
- `AddAgreesIff`, `RemoveAgreesIff`, `CleaningAgreesIff`: a meter added without modes, a device on two things,
  and garbage cleaning of a device in use part services from stored devices (`AgreementCanEnd`);
  `CleanedMeterStaysGone` says what follows.
- `EnsureReconciles`, `EnsureIsOrderFreeIff`, `FailedThingStaysUnregistered`: failing exclusion reports and
  factory calls during a reconciliation.
- `CreateKeepsUniqueIff`, `EnsureKeepsRecordIff`, `DestroyIsOrderFreeIff`: custom addresses may be shared
  (`SameCustomIsShared`), and a reconciliation may then remove a record it was asked to keep.
- `RemovedComesBackIff`, `SkippedIff`: failing saves of the adapter's state.
- `LookupIsOrderFreeIff`: topics indexed by two things (`SharedTopicIsAmbiguous`).
- `BucketsOverlapIff`: buckets whose names contain colons.

## Model

| member | source | states |
|---|---|---|
| `JsonLaws.ReadsBack` | storage/storage.go:186-189 | the parser gives back every value the indenting writer lays out, whatever its nesting |
| `JsonTorn.TornIsUnreadable` | storage/storage.go:285-288 | no proper prefix of a written object is a JSON text, because it leaves a bracket or a string open |
| `JsonLaws.TrailingTextIff` | storage/storage.go:285-288 | text after a written object must be white space |
| `JsonLaws.Layout` | storage/storage.go:186-189 | each member on its own line, one tab deeper than its brackets, with a space after the colon |
| `JsonLaws.DecodedReadsBack` | storage/storage.go:279-291 | whatever was decoded can be written, and is read back as itself |
| `JsonLaws.StringReadIff` | storage/storage.go:285-288 | the reader takes exactly the bodies of string literals |
| `KeyOrder.Sorted` | storage/storage.go:186-189 | dictionaries are written with each key once, in ascending order |
| `Models.ItemsAreWritable` | storage/storage.go:186-189 | every storable model is laid out as writable JSON |
| `Models.DecodedValueIsOver` | storage/storage.go:285-288 | decoding a written value into what is there enters records field by field and lists element by element, adds to dictionaries and replaces the rest |
| `Models.ModelComesBackIff` | storage/storage.go:285-288 | a model decoded over another is just itself if and only if, in every record, list element and dictionary, it holds whatever the other holds in its place |
| `Models.OmittedIsFilledIn` | storage/storage.go:285-288 | whatever a value leaves out at any depth stays as it was |
| `Models.AcceptedIff` | storage/storage.go:285-288 | a value is accepted if and only if it and everything in it is of the right kind |
| `Models.MergeMember` | storage/storage.go:285-288 | the members of an object are decoded each on its own, skipped ones beside others |
| `Models.MergeElementAt` | storage/storage.go:285-288 | so are the elements of an array, which says how many there are; null and wrong kinds leave the one in place, or zero |
| `Storage.File.Write` | storage/storage.go:293-317 | truncating, writing and syncing a file stops, after any number of steps, with exactly that prefix on disk, and reports success only if the sync was done too |
| `Storage.Store.MakeBackup` | storage/storage.go:199-220 | the backup gets a prefix of the data file, torn or not; success means all of it, synced |
| `Storage.Store.Save` | storage/storage.go:175-197 | the two files after a save cut off at any step, and that it reports success exactly when every step, the last sync included, was done |
| `Storage.Store.ReadFile` | storage/storage.go:279-291 | what the text gives is decoded into what is in memory, the rest stays; values of the wrong kind are skipped and reported, null is ignored where it means nothing; unreadable text leaves the model alone |
| `Storage.Store.Load` | storage/storage.go:84-165 | the fallback from data to backup to defaults, with its error cases |
| `Storage.LoadsWithoutData` | storage/storage.go:90-126 | without a data file, whatever the backup: the defaults over the blank model if they decode, an error if they do not or are missing, nothing if none are configured |
| `Storage.UnreadableFiles` | storage/storage.go:117-165 | defaults that do not decode make every load fail; a data file and a backup that do not give the defaults, or an error without any |
| `Storage.BackupLoadsOverPartialData` | storage/storage.go:141-165 | the backup is loaded over the good part of a data file with something of the wrong kind in it |
| `Storage.WholeFileLoads` | storage/storage.go:279-291 | a completely written file loads as the saved model over what was there, record by record and element by element |
| `Storage.TornFileFails` | storage/storage.go:279-291 | a file cut short at any character fails to load |
| `Storage.OnlyObjectsLoad` | storage/storage.go:279-291 | so does any value but an object, except null, which changes nothing, and an object with more text after it |
| `Storage.FieldsByKind` | storage/storage.go:279-291 | what one field does to the model, by the kind of field and value |
| `Storage.ObjectLoadsIff` | storage/storage.go:279-291 | a file loads without error if and only if every declared field in it is of the right kind |
| `Storage.LoadRecovers` | storage/storage.go:111-220 | in every run of saves from a completed one, with no two interrupted saves in a row, loading gives the last completed model - or the interrupted one exactly when all of it had been written - over the defaults |
| `Storage.CompletedSaveLoads` | storage/storage.go:175-197 | a save that completes is what loads, whatever was on disk |
| `Storage.BackupComesFirst` | storage/storage.go:175-220 | until the old data file is copied and synced it is untouched, and the backup a prefix of it |
| `Storage.UnsyncedSaveLoads` | storage/storage.go:293-317 | a save that fails in its sync only reports an error, and is nevertheless what loads |
| `Storage.SavedModelComesBackIff` | storage/storage.go:84-165 | loading gives back the saved model itself if and only if it holds whatever the defaults put in its records, list elements and dictionaries |
| `Storage.OmittedComesFromDefaults` | storage/storage.go:84-165 | whatever a saved model leaves out of a record or dictionary, at any depth, is loaded as the defaults have it |
| `ConfigModels.DisabledComesBackEnabled` | telemetry/types/types.go:22-27 | telemetry saved as disabled, which is written by leaving the flag out, loads as enabled when the defaults enable it |
| `ConfigModels.DisabledComesBackEnabledHere` | config/default.go:34 | it happens: a defaults file with the flag and a saved configuration with the time only |
| `ConfigModels.LabelComesFromDefaults` | manifest/manifest.go:17-47 | a label the saved manifest does not give its i-th setting is the one the defaults give theirs, whatever setting that is |
| `ConfigModels.RemovedLabelComesBack` | manifest/loader.go:23-31 | a translation that was saved away comes back |
| `Storage.NextSaveIsSafeIff` | storage/storage.go:181-194 | a load after any interruption of the next save succeeds if and only if, when that save starts, the data file decodes - or the backup, while there is no data file - whatever the defaults |
| `Storage.NextSaveLoads` | storage/storage.go:175-220 | with such a file to fall back on, every load gives what it holds, the model being saved, or what was there before the first data file |
| `Storage.FirstSaveCanFail` | storage/storage.go:175-197 | the first save ever, cut short as soon as the file exists, makes a storage without defaults fail to load |
| `Storage.TwoCutsLose` | storage/storage.go:199-220 | two interruptions in a row can lose every saved model: with a defaults file loading then silently gives the defaults, without one it fails |
| `ConfigPoll.NextUpdate` | telemetry/config_poll/config_poll.go:191-209 | every delay is positive and below 24h30m, and an instant within a day is never anticipated and overshot by less than the jitter |
| `ConfigPoll.Poller.Start` | telemetry/config_poll/config_poll.go:76-109 | starting arms the first poll, and does nothing while a timer is set |
| `ConfigPoll.Poller.HandleConfigReport` | telemetry/config_poll/config_poll.go:169-189 | a report is remembered and, unless stopped, replaces the timer |
| `ConfigPoll.Poller.ScheduleLocked` | telemetry/config_poll/config_poll.go:230-259 | the old timer is disarmed and a new one becomes current |
| `ConfigPoll.Poller.TimerCallback` | telemetry/config_poll/config_poll.go:237-256 | only the current timer's callback acts: it skips the poll when a report is fresh and otherwise sends |
| `ConfigPoll.Poller.RequestPublished` | telemetry/config_poll/config_poll.go:261-277 | a fallback timer is armed after every request, failed or not, unless stopped |
| `ConfigPoll.Poller.Stop` | telemetry/config_poll/config_poll.go:211-228 | the timer is disarmed and forgotten |
| `ConfigPoll.PollingNeverStops` | telemetry/config_poll/config_poll.go:169-277 | in every interleaving from Start until Stop the newest callback is still to run or a request is in flight, no other timer is armed, and 24h30m of silence means one of them is overdue |
| `ConfigPoll.SupersededStaysSuperseded` | telemetry/config_poll/config_poll.go:240-244 | however long a superseded callback waits, it changes nothing |
| `ConfigPoll.StoppedStaysQuiet` | telemetry/config_poll/config_poll.go:211-228 | after Stop nothing late arms a timer or starts a request until the next Start |
| `ConfigPoll.StopIsQuiet` | telemetry/config_poll/config_poll.go:211-228 | from Stop until the next Start no timer is armed and no request started |
| `ConfigPoll.StartIsIdempotent` | telemetry/config_poll/config_poll.go:76-109 | a second Start changes nothing |
| `ConfigPoll.ReportKeepsPromise` | telemetry/config_poll/config_poll.go:169-209 | a report arms the timer for the instant it names, a day away at most, or the default interval, and overshoots it by less than the jitter |
| `ConfigPoll.PromiseHoldsIff` | telemetry/config_poll/config_poll.go:179-277 | no request is made before that instant, in any run without another report or start, if and only if none was in flight or no more than the default interval was promised |
| `ConfigPoll.NoRequestForAnInterval` | telemetry/config_poll/config_poll.go:76-109 | after a start and after each request the next is a default interval away |
| `ConfigPoll.RequestsFollowAge` | telemetry/config_poll/config_poll.go:246-251 | no request within the jitter of a report, whatever happens; once the last report is older the current callback makes one, and before that it waits another interval |
| `ConfigPoll.RequestsBalance` | telemetry/config_poll/config_poll.go:255-277 | every request is in flight until it completes, once |
| `TelemetryWindow.Telemetry.SetTelemetry` | config/default.go:216-231 | memory takes the configuration first, the disk only if the save succeeds |
| `TelemetryWindow.Telemetry.StartTimerLocked` | telemetry/telemetry.go:557-571 | a new timer is armed and becomes current |
| `TelemetryWindow.Telemetry.StopTimerLocked` | telemetry/telemetry.go:573-578 | the current timer is disarmed and forgotten |
| `TelemetryWindow.Telemetry.Enable` | telemetry/telemetry.go:383-407 | the window restarts or ends with its timer; a failing save changes memory only |
| `TelemetryWindow.Telemetry.SetValidity` | telemetry/telemetry.go:419-462 | the timer moves to the new end of the window, or telemetry ends if that is past |
| `TelemetryWindow.Telemetry.ResumeValidityWindow` | telemetry/telemetry.go:508-555 | startup clamps the window's start to the clock, ends an expired window and arms the rest of an open one, in memory also if the save fails |
| `TelemetryWindow.Telemetry.TimerCallback` | telemetry/telemetry.go:557-592 | only the current timer's callback disables telemetry |
| `TelemetryWindow.BootEstablishesInvariant` | telemetry/telemetry.go:113-153 | whatever is on disk and whatever the clock says, a process whose save succeeds starts with disk, timer and configuration in agreement |
| `TelemetryWindow.BootEstablishesInvariantIff` | telemetry/telemetry.go:508-555 | timer and memory agree at startup even if the save fails; the disk does too if and only if it succeeds or nothing needs saving |
| `TelemetryWindow.EnabledExactlyWhileTimed` | telemetry/telemetry.go:383-592 | in every run, restarts included, telemetry is enabled exactly while a live timer is armed for the end of the window or its callback is due |
| `TelemetryWindow.CallbackNeverEndsEarly` | telemetry/telemetry.go:560-569 | stale callbacks leave a renewed window alone, and the one that disables telemetry runs only when its window is over |
| `TelemetryWindow.RestartNeverExtends` | telemetry/telemetry.go:508-555 | no run without an enabling or a new validity, restarts on any clock included, moves the end of the window back |
| `TelemetryWindow.AskedIsKept` | telemetry/telemetry.go:419-462 | through every run the validity and the suppression last asked for are in memory and on disk, open window or not, and every open window is timed by that validity |
| `TelemetryWindow.OperationsOnWindow` | telemetry/telemetry.go:383-462 | enabling opens a window from now, disabling closes it, a validity closes or moves it by the time since its start |
| `TelemetryWindow.WindowLasts` | telemetry/telemetry.go:383-592 | an open window keeps start and end until its end, through expiries and restarts, while the clock stays within it |
| `TelemetryWindow.WindowEnds` | telemetry/telemetry.go:557-592 | and at its end its own timer and callback end it |
| `TelemetryWindow.ClosedStaysClosed` | telemetry/telemetry.go:383-592 | telemetry that is off stays off until it is enabled |
| `TelemetryWindow.RestartResumesIff` | telemetry/telemetry.go:508-555 | a restart resumes a window exactly if the clock is before its end, and starts one whose start is missing or ahead; the first process opens one with no validity and no suppression |
| `TelemetryWindow.ClockBehindStart` | telemetry/telemetry.go:427-436 | with the clock behind the start of the window a validity counts from the clock |
| `TelemetryWindow.ClosedHasNoStart` | telemetry/telemetry.go:383-592 | a disabled configuration has no start left in memory or on disk |
| `TelemetryWindow.FailedEnableKeepsTimerIff` | telemetry/telemetry.go:396-404 | after a failing save timer and configuration agree if and only if the call asked for what was already the case |
| `TelemetryWindow.FailedSetValidityKeepsTimerIff` | telemetry/telemetry.go:448-459 | the same for the validity: no open window, or the effective validity with time left |
| `TelemetryWindow.FailedSavesPart` | telemetry/telemetry.go:383-462 | they do part in the first process, when disabling or another validity cannot be saved |
| `TelemetryWindow.FailuresHeal` | telemetry/telemetry.go:383-592 | however many saves failed before, the first enabling, disabling, new validity or restart that saves puts disk, memory and timer back in agreement for good while saves succeed |
| `Counters.Emitter.EmitIfMore` | telemetry/telemetry.go:245-286 | the counter's new state, and that it emits exactly when the threshold is reached outside the interval |
| `Counters.Emitter.MatchScope` | telemetry/telemetry.go:307-316 | comparing fingerprints pair by pair, in any order, decides whether the data contains the scope |
| `Counters.Emitter.ResetEventCounters` | telemetry/telemetry.go:288-301 | exactly the counters under the prefix whose data contains the scope go, in any order of iteration |
| `Counters.CountersAreIndependent` | telemetry/telemetry.go:245-316 | through any run whose prefixes do not meet its own, each counter is as if only its own calls and matching resets had happened |
| `Counters.NulFreeIsApart` | telemetry/telemetry.go:250-252 | prefixes of NUL-free names never meet |
| `Counters.UnderPrefixIff` | telemetry/telemetry.go:288-297 | a counter lies under a prefix if and only if its own prefix starts with it |
| `Counters.SameCounterIff` | telemetry/telemetry.go:250-252 | two calls share a counter if and only if their prefixes and their data are the same |
| `Counters.ResetIsAloneIff` | telemetry/telemetry.go:288-301 | a reset leaves another event's counter alone if and only if the prefixes do not meet or its data does not contain the scope |
| `Counters.NulNamesCollide` | telemetry/telemetry.go:250-252 | an input whose prefixes meet: NUL in a name |
| `Fingerprint.JsonIsFingerprint` | telemetry/telemetry.go:318-325 | JSON text with sorted keys differs for different data and is free of NUL |
| `Counters.EmissionsArePaidFor` | telemetry/telemetry.go:266-277 | emissions times threshold plus the count never exceed the calls, emissions are an interval apart, and none is withheld longer |
| `Counters.EmissionsWithoutInterval` | telemetry/telemetry.go:266-277 | without an interval emissions and count are quotient and remainder of the calls by the threshold |
| `Counters.EmissionsWithoutClearing` | telemetry/telemetry.go:262-277 | a counter that is not cleared counts every call and emits, from the threshold on, as often as the interval allows |
| `Counters.EmissionsOnEveryCall` | telemetry/telemetry.go:262-277 | without an interval it emits on every call from the threshold on |
| `Counters.ContainsIff` | telemetry/telemetry.go:303-316 | data contains a scope exactly if laying the scope over it changes nothing |
| `Counters.AloneIsCalls` | telemetry/telemetry.go:245-286 | a counter that is only called ends a mixed run as the sequence of its own calls leaves it |
| `Counters.RunEmitsAsCalls` | telemetry/telemetry.go:245-286 | and it emits in that run exactly when the sequence of its own calls would |
| `Things.ShapedCounts` | adapter/service/chargepoint/specification.go:53 | a topic with the framework's shape has exactly five slashes and starts with one |
| `Things.AtMostOneSuffix` | adapter/thing.go:152-163 | of such topics at most one is a suffix of any message topic |
| `Things.Thing.constructor` | adapter/thing.go:89-118 | index and report of a new thing, consistent for distinct topics |
| `Things.Thing.AddService` | adapter/thing.go:336-343 | a service not yet indexed joins index and report, once |
| `Things.Thing.RemoveService` | adapter/thing.go:345-359 | the topic leaves index and report, and nothing else does |
| `Things.Thing.ServiceByTopic` | adapter/thing.go:152-163 | the lookup finds a suffix if there is one, and the same one in every iteration order for shaped topics |
| `Lookup.ThingByTopic` | adapter/adapter.go:109-148 | the first thing in the order of iteration with a service for the message, and that service |
| `Lookup.LookupIsOrderFreeIff` | adapter/adapter.go:109-148 | the answer is the same in every order if and only if no matching topic is indexed by two things |
| `Lookup.SharedTopicIsAmbiguous` | adapter/adapter.go:136-148 | two things that index one topic make the answer depend on the order |
| `MeterManager.Manager.RecalculateEnergy` | adapter/service/virtualmeter/manager.go:326-360 | energy grows by the power over at most two periods, for active devices whose period has passed or when forced |
| `MeterManager.Manager.RegisterVirtualServices` | adapter/service/virtualmeter/manager.go:463-521 | the virtual meter service joins the thing, the numeric one only for a device with modes; others start blank; other things stay as they are |
| `MeterManager.Manager.AddMeter` | adapter/service/virtualmeter/manager.go:82-128 | energy is brought up to date under the old modes before the new ones apply, and a first meter adds the service to a thing the lookup finds, index and report alike |
| `MeterManager.Manager.RemoveMeter` | adapter/service/virtualmeter/manager.go:132-159 | the device is blanked, there or not, and its service removed from a thing the lookup finds |
| `MeterManager.Manager.ThingByTopic` | adapter/adapter.go:136-148 | the lookup answers with some thing that has a matching service, and with none only if none has |
| `MeterManager.Manager.UpdateMeter` | adapter/service/virtualmeter/manager.go:176-211 | a change of mode or level accounts for the old power first; no change does nothing |
| `MeterManager.Manager.ReportMeter` | adapter/service/virtualmeter/manager.go:214-249 | power or stored energy after a recalculation that is due |
| `MeterManager.Manager.ResetMeter` | adapter/service/virtualmeter/manager.go:252-269 | the energy starts again from zero now |
| `MeterManager.Manager.DeleteDeviceEntry` | adapter/service/virtualmeter/manager.go:271-286 | a device not updated for the cleaning period is deleted, in use or not |
| `MeterManager.Manager.UpdateDeviceActivity` | adapter/service/virtualmeter/manager.go:289-319 | every metered device of the thing becomes active or not, in any order; a missing device ends it with some of them done and nothing else changed |
| `Meter.ApplyRefines` | adapter/service/virtualmeter/manager.go:176-269 | each single operation of the lazy meter keeps step with the one that integrates all the time |
| `Meter.LazyMeterIsExact` | adapter/service/virtualmeter/manager.go:176-234 | stored energy plus current power since the last recalculation is the integral of the power, over every run of an active device recalculated within two periods |
| `Meter.RecalculationIsExactIff` | adapter/service/virtualmeter/manager.go:336-351 | a recalculation is exact if and only if it comes within two periods or no power was drawn |
| `Meter.EnergyNeverExceedsPeak` | adapter/service/virtualmeter/manager.go:252-360 | in every run, outages and inactive spells included, stored energy is at most the peak power since it was cleared over the time since then |
| `Meter.EnergyFallsOnlyWhenCleared` | adapter/service/virtualmeter/manager.go:252-360 | stored energy falls only on a reset, a removal or a registration without modes |
| `Meter.InactiveDrawsNothing` | adapter/service/virtualmeter/manager.go:326-334 | through every run without activation or clearing an inactive device keeps its energy, and through updates and reports its time |
| `Meter.ClearedStoresNothing` | adapter/service/virtualmeter/manager.go:132-159 | a device that was removed or registered anew is blank and stores nothing until it is activated |
| `Meter.InactiveSpellIsCountedIff` | adapter/service/virtualmeter/manager.go:289-351 | the first recalculation after an activation counts the inactive spell if and only if power is drawn |
| `Meter.SteadyLoad` | adapter/service/virtualmeter/manager.go:336-351 | a steady load counts watts of the mode, none for an unknown one, times level times hours, in thousands |
| `Meter.ReportsAreThrottled` | adapter/service/virtualmeter/manager.go:332-334 | reports within a period of the last recalculation change nothing |
| `Meter.SettingsAreKept` | adapter/service/virtualmeter/manager.go:82-319 | modes, unit, mode, level and activity are those last given |
| `MeterManager.ServicesFollowModes` | adapter/service/virtualmeter/manager.go:82-159 | over every run and on every thing the numeric meter service is there exactly when the virtual one is and the stored device has modes |
| `MeterManager.AddAgreesIff` | adapter/service/virtualmeter/manager.go:101-125 | adding keeps that agreement if and only if modes are given and a first meter is on one thing only |
| `MeterManager.RemoveAgreesIff` | adapter/service/virtualmeter/manager.go:132-159 | removing keeps it if and only if there were no modes or the device is on one thing only |
| `MeterManager.CleaningAgreesIff` | adapter/service/virtualmeter/tasks.go:66-86 | cleaning keeps it if and only if the device is not stale or on no thing |
| `MeterManager.AgreementCanEnd` | adapter/service/virtualmeter/manager.go:82-128 | it does end for a device on two things and for a stale device in use |
| `MeterManager.CleanedMeterStaysGone` | adapter/service/virtualmeter/manager.go:271-286 | a device cleaned away in use stays gone, and cannot be added, until it is removed or its thing made anew |
| `MeterManager.AnswerCarries` | adapter/adapter.go:136-148 | looking up a virtual meter topic finds a thing that carries exactly that topic |
| `MeterManager.AddSucceedsIff` | adapter/service/virtualmeter/manager.go:82-150 | a meter can be added or removed exactly if some thing has the virtual meter service |
| `MeterManager.ActivityReaches` | adapter/service/virtualmeter/manager.go:289-319 | a thing's activity reaches exactly the devices whose virtual meter service it has |
| `MeterLives.DeviceIsItsLife` | adapter/service/virtualmeter/manager.go:82-319 | over every run of the manager a stored device is the blank one of its creation after just the operations that concerned it |
| `MeterLives.ManagedEnergyNeverExceedsPeak` | adapter/service/virtualmeter/manager.go:252-360 | the bound on stored energy holds of every device in the manager |
| `MeterLives.ManagedEnergyFallsOnlyWhenCleared` | adapter/service/virtualmeter/manager.go:252-360 | energy of a device in the manager falls only by an event that clears it |
| `MeterLives.ManagedMeterIsExact` | adapter/service/virtualmeter/manager.go:176-234 | a device in the manager stays in step with the integral of its power through timely operations |
| `MeterLives.DeviceRunsItsOps` | adapter/service/virtualmeter/manager.go:82-319 | between any two moments a device goes through its own operations and nothing else |
| `MeterLives.ManagedInactiveDrawsNothing` | adapter/service/virtualmeter/manager.go:326-334 | an inactive device in the manager keeps its energy |
| `MeterLives.ManagedSettingsAreKept` | adapter/service/virtualmeter/manager.go:82-319 | and the settings its own events gave it |
| `MeterLives.CleaningSparesTheRecent` | adapter/service/virtualmeter/manager.go:271-286 | a device brought up to date within the cleaning period is never cleaned away, and one that is not is |
| `Registry.Adapter.InitializeThings` | adapter/adapter.go:207-238 | every persisted thing is registered at its address, in any order - or none if a factory call or report fails; of records that share an address any one |
| `Registry.RestartRegistersIff` | adapter/adapter.go:207-238 | a restart registers exactly the persisted things if and only if no factory call fails, and leaves records and index alone |
| `Registry.Adapter.AcquireAddress` | adapter/state.go:60-71 | the next number, as text |
| `Registry.Adapter.CreateThing` | adapter/adapter.go:356-409 | the record is persisted before the factory runs, and the thing registered only if it succeeds |
| `Registry.CreateMakes` | adapter/adapter.go:378-409 | a creation leaves a record with the seed's information and address, uses up a number only without a custom address, and touches no other record |
| `Registry.InfoIsLastGiven` | adapter/adapter.go:378-409 | over every run a record holds the information of the seed it was last created from |
| `Registry.Adapter.DestroyThing` | adapter/adapter.go:411-433 | a record found at the address and the thing there go, also when the exclusion report then fails |
| `Registry.DestroyRemovesExactly` | adapter/adapter.go:411-425 | record and thing at the address go, for unique addresses, and nothing else |
| `Registry.Adapter.ExchangeID` | adapter/adapter.go:173-183 | the address of a persisted ID |
| `Registry.Adapter.ExchangeAddress` | adapter/adapter.go:186-196 | an ID persisted at the address, in any order of iteration; the only one for unique addresses |
| `Registry.Adapter.Contains` | adapter/thing.go:30-38 | whether some seed has the ID |
| `Registry.Adapter.Without` | adapter/thing.go:40-52 | the other seeds, in order |
| `Registry.Adapter.EnsureThings` | adapter/adapter.go:241-274 | an outcome that destroying unwanted records in some order and creating the seeds without a record may come to, failures included, for unique addresses or shared ones |
| `Registry.EnsureIsDetermined` | adapter/adapter.go:241-274 | with unique addresses the order of the records determines that outcome |
| `Registry.EnsureReconciles` | adapter/adapter.go:241-274 | it succeeds exactly when no exclusion report and no factory call fails; then persisted IDs are the seeds' IDs; survivors are unchanged; a failing report stops it before anything is created; registered and persisted things part exactly when a factory call failed |
| `Registry.EnsureMakesRecords` | adapter/adapter.go:266-271 | after success every new seed has a record with its own information, at its custom address or at a number not issued before |
| `Registry.EnsureNumbersInOrder` | adapter/adapter.go:266-271 | of two seeds that get numbers the later gets the larger |
| `Registry.EnsureIsOrderFreeIff` | adapter/adapter.go:259-264 | the outcome is the same in every order if and only if no exclusion report fails or at most one thing is unwanted |
| `Registry.EnsureIsIdempotent` | adapter/adapter.go:241-274 | repeating a successful call changes nothing and cannot fail |
| `Registry.FailedThingStaysUnregistered` | adapter/adapter.go:356-375 | through every run that asks for it, a thing whose factory call failed keeps its record and stays unregistered, until a restart in which every factory call succeeds |
| `Registry.Adapter.Sort` | adapter/adapter.go:245-257 | in any order of the records: the addresses of those without a seed, one for each, and the seeds without a record, in order |
| `Registry.Adapter.DestroyInOrder` | adapter/adapter.go:259-264 | an outcome that destroying the things at the given addresses may come to, up to and including the first whose exclusion report fails |
| `Registry.AddressesNeverReissued` | adapter/state.go:60-71 | over every run of creations, destructions, reconciliations and restarts addresses stay unique, and a number issued before names only the thing that had it |
| `Registry.AddressesIncrease` | adapter/state.go:60-71 | of two automatic addresses the later is the larger number, whatever happens between them |
| `Registry.ExchangesAreInverse` | adapter/adapter.go:173-196 | after every such run the two exchanges are inverse |
| `SharedAddresses.DestroyIsOrderFreeIff` | adapter/adapter.go:411-423 | which record a destruction removes depends on the order of the records if and only if two share the address |
| `SharedAddresses.CreateKeepsUniqueIff` | adapter/adapter.go:378-409 | creating a thing keeps addresses unique if and only if no other record is at its address |
| `SharedAddresses.SameCustomIsShared` | adapter/adapter.go:378-409 | two things created with one custom address share it, and which record a destruction removes depends on the order |
| `SharedAddresses.EnsureKeepsRecordIff` | adapter/adapter.go:241-274 | a record that is to be kept survives a reconciliation in every order if and only if no unwanted record shares its address |
| `AdapterState.StateFile.AcquireAddress` | adapter/state.go:60-71 | the index grows in memory, and the number is handed out only if it was saved |
| `AdapterState.StateFile.Add` | adapter/state.go:86-101 | the record is in memory, and on disk if the save gets there |
| `AdapterState.StateFile.Remove` | adapter/state.go:103-114 | the record leaves memory, and the disk if the save gets there |
| `AdapterState.IssuedIsFresh` | adapter/state.go:60-114 | whatever saves fail and wherever the process dies, a number handed out is on no record, in memory or on disk, and larger than any before |
| `AdapterState.SkippedIff` | adapter/state.go:60-71 | a number whose save failed is tried again if and only if a restart comes first and the disk was not behind |
| `AdapterState.RemovedComesBackIff` | adapter/state.go:103-114 | a record whose removal was refused is back after a restart if and only if it was on disk and the removal did not get there |
| `AdapterState.RefusedAdditionLasts` | adapter/state.go:86-101 | a refused addition becomes permanent with the next save that gets through, and is forgotten by a restart before it |
| `Database.Base.Set` | database/database.go:195-222 | a value is stored under the concatenated key |
| `Database.Base.Get` | database/database.go:237-251 | the stored value, or none |
| `Database.Base.Delete` | database/database.go:225-234 | the key is gone, and its absence an error |
| `Database.Base.KeysBetween` | database/database.go:301-323 | exactly the bucket's keys in the range, in byte order, for any bucket name |
| `Database.Base.KeysFrom` | database/database.go:276-298 | exactly the bucket's keys from the given one on that do not start with byte 0xFF, in order |
| `Database.Base.AscendRange` | database/database.go:282-288 | the store's scan: its keys in the range, in byte order |
| `Database.Domain.Set` | database/database.go:366-368 | a write lands in the domain's bucket |
| `Database.Domain.Delete` | database/database.go:376-378 | a deletion does too, and fails exactly for a key that is not there |
| `Database.Domain.Get` | database/database.go:361-363 | a read sees the domain's bucket |
| `Database.Domain.KeysBetween` | database/database.go:356-358 | the same for a domain's bucket |
| `Database.ScanIsUnique` | database/database.go:307-320 | order and contents leave only one possible answer |
| `Database.BucketsOverlapIff` | database/database.go:326-328 | two buckets share keys if and only if one's prefix starts with the other's |
| `Database.DomainKeyIsUnique` | database/database.go:381-383 | with colon-free names a stored key has one domain, bucket and key |
| `Database.WritesStayInTheirBucket` | database/database.go:361-378 | no run of writes elsewhere changes a domain's bucket |
| `Database.ScansAreUnaffected` | database/database.go:346-383 | nor any range scan of it |
| `Database.ReadsSeeLastWrite` | database/database.go:195-251 | a read sees the last write to its key, or nothing after a deletion |
| `Database.ColonNamesMix` | database/database.go:326-328 | names with colons do mix |
| `Observer.Observer.AddComponent` | prime/observer/set.go:26-32 | as a map, an unknown component is added and a known one kept |
| `Observer.Observer.UpdateComponent` | prime/observer/set.go:34-42 | as a map, the component is stored |
| `Observer.Observer.DeleteComponent` | prime/observer/set.go:44-49 | as a map, exactly the ID is removed, although the last component changes place |
| `Observer.Observer.Find` | prime/observer/set.go:51-59 | an index with the ID, or -1 exactly if there is none |
| `Observer.Observer.Update` | prime/observer/observer.go:69-125 | a notification's effect on the map, and that a malformed one invalidates the cache |
| `Observer.Observer.Refresh` | prime/observer/observer.go:236-261 | when a fetch is made, and what its answer or failure does |
| `Observer.Observer.Get` | prime/observer/observer.go:263-272 | the components, or an error exactly when a needed fetch fails |
| `Observer.CacheFollowsObservations` | prime/observer/observer.go:69-125 | after every run a successful Get returns, without duplicate IDs, the latest snapshot folded with just the notifications after it |
| `Observer.FailedUpdateForcesFetch` | prime/observer/observer.go:77-82 | after a failed update no Get succeeds before a fetch does |
| `Observer.UnreadableNotifications` | prime/observer/observer.go:69-125 | a payload that cannot be read does that from every state, and changes no component; an unknown command changes nothing |
| `Observer.NotificationsLast` | prime/observer/set.go:26-49 | edits last until the next edit or deletion, additions too unless the component was there, deletions until the next addition or edit |
| `Observer.GetNeedsFetchIff` | prime/observer/observer.go:236-261 | after a fetch a Get makes another exactly when it is older than the interval |
| `Observer.NotificationCanHappen` | prime/observer/observer.go:69-125 | the cache can follow every notification |
| `ErrorHook.Hook.Fire` | debug/formatters/errors_hook.go:46-70 | the entry is appended, dropping the oldest when full |
| `ErrorHook.Hook.PurgeExpired` | debug/formatters/errors_hook.go:90-97 | the expired entries at the front go |
| `ErrorHook.Hook.ErrorsReport` | debug/formatters/errors_hook.go:73-85 | the remaining messages, oldest first |
| `ErrorHook.ReportIsExact` | debug/formatters/errors_hook.go:46-97 | after any run a report holds exactly those of the last 64 entries that are not older than the limit |
| `LogManager.Manager.StoreLevel` | config/default.go:132-139 | memory takes the level, then all of memory is saved, fails to be, or is the last thing saved |
| `LogManager.Manager.StoreRevertAt` | config/default.go:196-203 | the same for the deadline |
| `LogManager.Manager.SetLevel` | debug/log_manager.go:153-194 | the ordered writes of level and deadline, each of which may fail or be the process's last, and that a deadline that cannot be cleared is no error |
| `LogManager.Manager.SetRevertTimeout` | debug/log_manager.go:198-215 | the timeout is stored and an armed deadline moved, and it succeeds exactly if both are saved |
| `LogManager.Manager.ApplyPersistedLevel` | debug/log_manager.go:64-97 | startup reverts a verbose level that is due and otherwise applies the persisted one |
| `LogManager.VerboseLevelsExpire` | debug/log_manager.go:64-215 | whatever fails or dies, no verbose level is without a deadline in memory or on disk, a due startup comes up at info, and none is verbose after the last deadline |
| `LogManager.SetLevelTakesEffect` | debug/log_manager.go:153-194 | a saved level is in force, a verbose one with a deadline after the configured timeout or a week, any other without |
| `LogManager.LevelLasts` | debug/log_manager.go:64-97 | it stays in force in every process until its deadline, or for good, whatever other writes fail or die |
| `LogManager.TimeoutIsUsed` | debug/log_manager.go:198-215 | a saved timeout moves an armed deadline and is the one later verbose levels get |
| `LogManager.SetLevelOutcomes` | debug/log_manager.go:153-194 | memory, disk and logger after every combination of outcomes of the two writes; text that names no level is refused |
| `LogManager.StartupOutcomes` | debug/log_manager.go:64-97 | a startup that reverts and saves leaves no deadline, one that cannot save keeps it and is due again, an unknown level comes up at info |
| `LogManager.OtherWrites` | config/default.go:132-203 | any save makes all of memory permanent; a timeout that is not positive is refused |
| `Migration.Default.FirstMatch` | config/migration.go:32-40 | the first step that starts at the version, or -1 |
| `Migration.StepAt` | config/migration.go:34-40 | the step at a version is the first in the list that starts there |
| `Migration.Default.Migrate` | config/migration.go:25-68 | it terminates, visits no version twice, and leaves version and count of exactly the completed steps |
| `Migration.SucceedsIff` | config/migration.go:25-68 | it succeeds if and only if the chain of first matches, with every action succeeding, comes to an end |

## Left out

- Storage reset, file permissions and directories; the disk keeps what was written before an interruption, in order.
- Scalars of the wrong type, keys that match a field in another case, fixed-size arrays, and fields of types that decode themselves.
- Elements beyond a list's length: a list that a failed decoding shortened may keep them in memory and show them again when the backup makes it longer.
- String and number literals are compared in their written form; the equivalence of different spellings is not modelled.
- Subscription, the listening goroutine and message building of the poller; its poll interval is the default one.
- TelemetryWindow.EnabledExactlyWhileTimed: is about runs in which saves succeed; FailuresHeal covers the others.
- Stopping telemetry, after which nothing is claimed, and a seed configuration that cannot be saved, which ends startup.
- Sending events, suppression rules and the change-based emission of telemetry.
- Counters.CountersAreIndependent: takes any injective fingerprint to text without NUL, of which JsonIsFingerprint gives an indented one; data that cannot be encoded is left out.
- Failing database writes in the meter manager, and the sending of its inclusion reports; that a report lists what the index holds is part of every thing's validity.
- MeterManager.ServicesFollowModes: assumes that a device is registered on one thing, is added with modes and is not cleaned away in use; the lemmas named AgreesIff show what happens otherwise.
- Registry.AddressesNeverReissued: is about custom addresses that no other thing has and saves that succeed; the lemmas about shared addresses and the state file cover the others.
- Thing information that cannot be encoded, and the services, checksums and connectors of things.
- Whole-bucket key listing by pattern, expiry and recovery of the database, which the ordered store implements.
- Component kinds of the observer other than one, and the events it publishes.
- Message transport, routing, device services other than the virtual meter, event manager, backoff, lifecycle and task scheduling: easier than the cores above or wiring over libraries.
