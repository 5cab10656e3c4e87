# Fleet infrastructure: models and proofs

Dafny models of the stateful programs that run a small fleet of hosts, with proofs of what
they keep over whole runs. One module per program:

| module | program | what is modelled |
|---|---|---|
| `DependencyOrder`, `OverlayLifecycle`, `OverlayFleet`, `Backoff`, `HealthChecks` | overlay manager | dependency order with cycles, the activation/rollback/boot state machine of one overlay's state directory and services, check and boot over all overlays, retry backoff in 64-bit arithmetic, the probe loop |
| `ControlPlane`, `Consumers`, `Maintenance`, `StateKeys`, `JsonEquality` | control-plane provider | the asynchronous request/callback protocol, what consumers hold, triggers and garbage collection, addressing, semantic equality of JSON texts |
| `Provisioner` | provisioning broker | the lease, its claim, and the asynchronous preparation, with failing saves and restarts |
| `SilenceStripper` | silence stripper | the hysteresis scan, the in-place padding, the audio kept |
| `ForgeTokens`, `IdentityClients` | token and OIDC providers | reconciling a cache and a remote server with what is asked for |
| `CertInstall` | certificate installer | install and renewal decisions over delivery sequences |
| `Strings`, `Numbers`, `Wrappers` | | string order and sorting, 64-bit integers and durations, `Option` |

Code that updates state in place is a class whose methods are proved equal to a function on
values (`AfterActivate`, `Next`, `AfterRequest`, ...); what the program promises is proved
about those functions, over every run. Whatever the outside decides is an input: results of
commands and requests, clock readings, random tokens, the success of writes. Map iteration
order is arbitrary wherever the programs iterate over maps.

## Where the code and its description differ

Each with the exact condition under which the code does what it is described to do.

- The automatic rollback of the overlay manager does not in general restore what was running:
  it goes to `previous.json` before `current.json` has been rotated, so to the version before
  the running one, and without an older version it leaves the failed one's units and services.
  What was running runs afterwards exactly if the rollback goes through and the older version
  has the same store path, or there is none and the current path itself was being started
  again (`LostActivationRunsCurrentIff`, `AutomaticRollbackSkipsRunningVersion`).
- A check that answers "up to date" looks at `current.json` only. The version it names runs
  exactly if the last command that touched the services brought up the version current at its
  end; a lost first update whose registry entry is withdrawn is a run in which it does not
  (`UpToDateRunsIff`, `UpToDateWithOtherUnits`). "Rolled back" does not imply running either:
  the results of the rollback's unit generation, reload and start are ignored
  (`RollbackUndoesActivation`).
- A lease that was being prepared is stuck after a restart: the preparation is gone, and
  completion is refused while the mark is set. A reloaded claimed lease can be completed
  without an operator exactly if it was not saved with the mark (`ReloadedCompletableIff`);
  three requests lead there (`StuckIsReachable`).
- Consumers read an empty callback as a revocation (docs/control-plane-interfaces.md:111), but
  the provider revokes with `{}`. A need is left unsatisfied by it exactly if it has a handler
  that refuses this payload (`RevocationUnsatisfiesIff`).
- A revoked entry keeps its cached response, so an answer that comes back unchanged is not sent
  again (`ReturningAnswerNotSent`). The last callback carried the cached response exactly if
  the last event that sent the consumer anything sent a good answer (`LastToldIff`).
- A failed save is only a warning. The file a restart then reads agrees with the consumers
  exactly if no good answer to a known entry changed, the asking origin's own empty answer
  excepted (`UnsavedInitInSyncIff`, `UnsavedRequestInSyncIff`); the provider's memory agrees
  with them throughout exactly if every restart meets such a file (`InSyncThroughoutIff`).
- Triggers cache error responses, requests do not. After a trigger the cache agrees with what
  consumers were told exactly if no answer was an error (`TriggerInSyncIff`).
- The sweep's handler results, including rotated credentials, never reach the state file. After
  a sweep the file agrees with the consumers exactly if rotation brought no new good answer
  (`SweepInSyncIff`), and what one sweep rotates every later one sends again
  (`RotationRepeats`). A capability that is due for rotation while something of it is collected
  is not rotated: its handler runs, but nobody is sent the result (`SweepSendsIff`).
- A request whose handler fails is stored in memory only, so a restart before the next
  successful save forgets it (`LastRequestHeld`, and `RequestsHeld` for the exact contents).
- The token provider reports a token even if it could not store it. Whether every answered
  token is live at the end, however the forge and the disk behave, is exactly whether no two
  requests ask for the same token anew (`AnswersLiveIff`). A file that cannot be removed after
  its token was revoked is the one thing that breaks the cache (`RunKeepsLiveIff`); the next
  request for it is answered with the dead token (`DeadTokenAnswered`).
- A health configuration can be passed exactly if the stabilisation period is not positive, or
  the type of probe is known and the interval is positive: a manifest that leaves the interval
  out is never accepted (`AcceptableIff`).
- The silence stripper can lose speech for some parameters: it never does exactly if the
  minimum speech is at most the minimum silence, rounded up to windows, plus one window
  (`NoSpeechLostIff`).
- "Candidate expired while current is valid" decides nothing that the later comparison of
  expiries would not (`InstallsIff`).

## Model

| member | source | states |
|---|---|---|
| `DependencyOrder.Walker.Visit` | pkgs/fort-overlay-manager/main.go:174-193 | the recursive closure with its mutable marks and list does what the walk on values does, and terminates on cyclic graphs |
| `DependencyOrder.Walker.VisitAll` | pkgs/fort-overlay-manager/main.go:186-196 | both loops of the walk: names are visited in turn, undeclared ones are passed over |
| `DependencyOrder.CollectNames` | pkgs/fort-overlay-manager/main.go:166-170 | collecting the keys in any order and sorting them gives the unique increasing listing |
| `DependencyOrder.OrderedOverlays` | pkgs/fort-overlay-manager/main.go:165-198 | the imperative walk returns the specified order |
| `DependencyOrder.OrderedCorrect` | pkgs/fort-overlay-manager/main.go:159-198 | for every configuration each overlay is listed once, and a dependency at or after its dependent only if the dependent is reachable from it |
| `DependencyOrder.DependenciesFirstIffAcyclic` | pkgs/fort-overlay-manager/main.go:159-164 | every dependency comes first exactly on acyclic configurations |
| `DependencyOrder.OrderIgnoresListing` | pkgs/fort-overlay-manager/main.go:184-190 | permuting or repeating dependencies, or naming undeclared ones, never changes the order |
| `DependencyOrder.IndependentOverlaysAlphabetical` | pkgs/fort-overlay-manager/main.go:161-170 | without dependencies the order is alphabetical: ties are broken by name |
| `DependencyOrder.SiblingsAlphabetical` | pkgs/fort-overlay-manager/main.go:184-190 | so are the dependencies of one overlay: the one that depends on nothing and comes first by name is listed first if every overlay that wants the other wants it too |
| `DependencyOrder.VisitInv` | pkgs/fort-overlay-manager/main.go:175-193 | what one visit keeps from any intermediate state: no repetition, settled dependencies, the same unfinished overlays |
| `OverlayFleet.CmdCheck` | pkgs/fort-overlay-manager/main.go:201-247 | a check cycle decides each overlay on its own state and activates in dependency order; without a registry nothing happens |
| `OverlayFleet.CmdBoot` | pkgs/fort-overlay-manager/main.go:382-436 | boot regenerates every enabled overlay, then starts those with a committed version in dependency order; the state and services of every overlay afterwards |
| `OverlayFleet.ActionsFollowDependencies` | pkgs/fort-overlay-manager/main.go:207-209 | whatever subset is activated or started, an overlay precedes its dependency only on a cycle |
| `OverlayFleet.LeftAlone` | pkgs/fort-overlay-manager/main.go:209-222 | over any checks and boots an overlay that none of them considers (disabled, left out, or not in the registry) keeps versions, records and services |
| `OverlayFleet.FleetStepOn` | pkgs/fort-overlay-manager/main.go:211-245 | a considered overlay is checked against the path the registry gives its package, or booted |
| `OverlayFleet.WhoActs` | pkgs/fort-overlay-manager/main.go:211-245 | exactly which overlays a check activates and a boot starts |
| `OverlayLifecycle.OverlayDir.RecordAttempt` | pkgs/fort-overlay-manager/main.go:949-964 | the record after a failure: same path counts up, another path starts at one |
| `OverlayLifecycle.OverlayDir.FailActivation` | pkgs/fort-overlay-manager/main.go:939-944 | a terminal failure records the path and ends in the failed state |
| `OverlayLifecycle.OverlayDir.RotatePrevious` | pkgs/fort-overlay-manager/main.go:911-933 | current version and its GC root become the previous ones, if present |
| `OverlayLifecycle.OverlayDir.Rollback` | pkgs/fort-overlay-manager/main.go:801-846 | files, units and services after a rollback, operator's or automatic, on every branch |
| `OverlayLifecycle.OverlayDir.Activate` | pkgs/fort-overlay-manager/main.go:250-330 | files, units and services after an activation that breaks, is lost, or commits |
| `OverlayLifecycle.OverlayDir.StartTarget` | pkgs/fort-overlay-manager/main.go:297-301 | starting brings up the installed units unless services are already up |
| `OverlayLifecycle.OverlayDir.Check` | pkgs/fort-overlay-manager/main.go:224-245 | one overlay's check: activated exactly if not running and not backed off |
| `OverlayLifecycle.OverlayDir.ResetStaleBackoffOnBoot` | pkgs/fort-overlay-manager/main.go:983-995 | a record is cleared exactly if there is one and no committed version |
| `OverlayLifecycle.OverlayDir.Regenerate` | pkgs/fort-overlay-manager/main.go:391-422 | the first boot loop: units and root of the current version, a stale record cleared |
| `OverlayLifecycle.OverlayDir.StartOnBoot` | pkgs/fort-overlay-manager/main.go:424-435 | the second boot loop: whatever units are there are started if a version is committed |
| `OverlayLifecycle.RunWellKept` | pkgs/fort-overlay-manager/main.go:250-330 | at every boundary of every run: versions once reached permanent, previous implies current, GC roots link exactly those two, permanent has no attempt record, rolled-back has current and no previous, no transient state |
| `OverlayLifecycle.StepWellKept` | pkgs/fort-overlay-manager/main.go:801-846 | every command keeps that invariant |
| `OverlayLifecycle.CommittedForGood` | pkgs/fort-overlay-manager/main.go:321-324 | an overlay with a committed version never loses having one |
| `OverlayLifecycle.ActivationOutcome` | pkgs/fort-overlay-manager/main.go:258-330 | exactly what decides between permanent, rolled back and failed, health included, and what each leaves in versions, roots, record, units and services |
| `OverlayLifecycle.PermanentCameUp` | pkgs/fort-overlay-manager/main.go:301-326 | over every run, a version becomes permanent only by an activation whose services started and passed the health checks it wants |
| `OverlayLifecycle.OperatorRollbackOutcome` | pkgs/fort-overlay-manager/main.go:333-335 | exactly when an operator's rollback goes back, and what it leaves otherwise |
| `OverlayLifecycle.BootOutcome` | pkgs/fort-overlay-manager/main.go:382-436 | what a boot keeps, renews and starts, on every branch |
| `OverlayLifecycle.RebootedRunsIff` | pkgs/fort-overlay-manager/main.go:382-436 | exactly when a version runs after a reboot and a boot |
| `OverlayLifecycle.RollbackUndoesActivation` | pkgs/fort-overlay-manager/main.go:333-335 | an operator's rollback undoes the last committed activation, record and GC root included; the version runs again exactly if the steps it does not look at succeeded |
| `OverlayLifecycle.LostActivationRunsCurrentIff` | pkgs/fort-overlay-manager/main.go:295-316 | exactly when the version that was current runs after a lost activation |
| `OverlayLifecycle.AutomaticRollbackSkipsRunningVersion` | pkgs/fort-overlay-manager/main.go:833-837 | a run in which the version before the running one comes up |
| `OverlayLifecycle.RunsCurrentIff` | pkgs/fort-overlay-manager/main.go:295-316 | over every run with reboots: the current version is the one that runs exactly if the last command that touched the services brought up the version then current |
| `OverlayLifecycle.UpToDateRunsIff` | pkgs/fort-overlay-manager/main.go:224-229 | exactly when a check that answers "up to date" meets the advertised version running |
| `OverlayLifecycle.UpToDateWithOtherUnits` | pkgs/fort-overlay-manager/main.go:803-810 | a run in which it meets the services of a version that lost |
| `OverlayLifecycle.RollbackOnlyOnce` | pkgs/fort-overlay-manager/main.go:803-810 | a second lost activation after a rollback can only fail, leaving the versions alone and what it started itself running |
| `OverlayLifecycle.RetrySpacing` | pkgs/fort-overlay-manager/main.go:233-242 | the stored counter is the number of recorded failures of the path, and consecutive ones are at least the delay apart, even if the clock is set in between |
| `OverlayLifecycle.RetrySpan` | pkgs/fort-overlay-manager/main.go:1015-1039 | n failing activations span at least the sum of the first n-1 delays in whole seconds |
| `OverlayLifecycle.FailureRecorded` | pkgs/fort-overlay-manager/main.go:262-316 | every failing branch records the path, the time and the count |
| `OverlayLifecycle.ActivatesIff` | pkgs/fort-overlay-manager/main.go:224-242 | with the clock past the record: retried exactly once the delay has passed |
| `OverlayLifecycle.BootClearsStaleBackoffOnly` | pkgs/fort-overlay-manager/main.go:970-995 | after boot an uncommitted overlay is tried at once, a committed one keeps its backoff |
| `OverlayLifecycle.LossRecordedIffNamed` | pkgs/fort-overlay-manager/main.go:806-808 | a lost activation is recorded exactly if its path is not empty |
| `Backoff.CappedDelay` | pkgs/fort-overlay-manager/main.go:1026-1032 | the wrapping 64-bit doubling loop equals min(base*2^(max(attempts,1)-1), 6h) over unbounded integers |
| `Backoff.BackoffRemaining` | pkgs/fort-overlay-manager/main.go:1020-1039 | the reported wait, with the default for unusable poll intervals and the wrap of the last subtraction |
| `Backoff.DelayMonotone` | pkgs/fort-overlay-manager/main.go:1015-1019 | more attempts never shorten the delay; it is positive and at most six hours |
| `Backoff.DelayDoubles` | pkgs/fort-overlay-manager/main.go:1026-1032 | the delay starts at the base and doubles until capped |
| `Backoff.FirstWait` | pkgs/fort-overlay-manager/main.go:1021-1038 | right after the first failure the wait is the configured interval, or five minutes, and at most six hours |
| `Backoff.RemainingExact` | pkgs/fort-overlay-manager/main.go:1034-1038 | with the clock past the record: zero exactly once the delay has elapsed, otherwise the outstanding part, never above six hours |
| `Backoff.SkippedUnlessClockWraps` | pkgs/fort-overlay-manager/main.go:237-241 | for every clock: a path is skipped exactly while its delay has not elapsed and the subtraction does not wrap |
| `HealthChecks.RunHealthChecks` | pkgs/fort-overlay-manager/main.go:687-722 | the loop stops exactly when its guard first fails, and accepts exactly if the current streak covers the stabilisation period |
| `HealthChecks.AcceptedOnlyWhenStable` | pkgs/fort-overlay-manager/main.go:710-721 | acceptance needs an unbroken final run of r successes with r intervals covering the period and r-1 not |
| `HealthChecks.AcceptedIff` | pkgs/fort-overlay-manager/main.go:699-721 | acceptance, exactly: the period is covered before the safety cap is read |
| `HealthChecks.ProbeBound` | pkgs/fort-overlay-manager/main.go:697-718 | with a positive interval at most ceil((stabilize+60s)/interval) probes |
| `HealthChecks.AcceptableIff` | pkgs/fort-overlay-manager/main.go:689-721 | exactly the configurations some service can pass |
| `Provisioner.Server.ArmLease` | pkgs/provisioner/main.go:119-146 | the first target of that host is armed; unknown hosts and unauthorised callers change nothing |
| `Provisioner.Server.DisarmLease` | pkgs/provisioner/main.go:147-158 | disarming drops the lease of that host only |
| `Provisioner.Server.ActivateLease` | pkgs/provisioner/main.go:159-194 | a token is answered exactly if the claim was recorded and saved; conflicts are exactly the unclaimable states |
| `Provisioner.Server.Bootstrap` | pkgs/provisioner/main.go:195-218 | the archive is served only to the holder of an unexpired claim, and nothing changes |
| `Provisioner.Server.CompleteLease` | pkgs/provisioner/main.go:229-280 | every outcome of completion; accepted exactly if a preparation was started |
| `Provisioner.Server.PrepareFinished` | pkgs/provisioner/main.go:293-310 | the critical section ending a preparation |
| `Provisioner.Server.Save` | pkgs/provisioner/main.go:338-369 | a failed save leaves the file as it was |
| `Provisioner.AtMostOneClaimant` | pkgs/provisioner/main.go:159-194 | over every interleaving, failed saves and restarts included, no lease's token is answered twice |
| `Provisioner.AnsweredOnlyWhenDurable` | pkgs/provisioner/main.go:189-193 | an answer leaves only after the claim is in the state file, admitted before expiry |
| `Provisioner.ClaimWindows` | pkgs/provisioner/main.go:140-187 | claimable for five minutes from arming; the claim holds two hours from its own time |
| `Provisioner.ReplacedTokenIsInert` | pkgs/provisioner/main.go:245-298 | with fresh tokens, the token of a replaced or disarmed lease can change neither lease nor file |
| `Provisioner.RunPrepareTracked` | pkgs/provisioner/main.go:266-310 | in one process run exactly one preparation is in flight if the lease is marked, none otherwise; completed leases are not marked |
| `Provisioner.RestartTrackedIff` | pkgs/provisioner/main.go:84-91 | the condition on the reloaded lease under which that holds |
| `Provisioner.ReloadedPreparingIsStuck` | pkgs/provisioner/main.go:246-250 | a lease reloaded while marked is changed by nothing but arming or disarming |
| `Provisioner.ReloadedCompletableIff` | pkgs/provisioner/main.go:84-91 | a reloaded claimed lease can be completed without an operator exactly if it was not saved while preparing |
| `Provisioner.StuckIsReachable` | pkgs/provisioner/main.go:246-275 | arming, activating and completing lead to such a file |
| `Provisioner.CompletionKept` | pkgs/provisioner/main.go:295-307 | over a run of one process completion is undone by nothing but arming or disarming |
| `Provisioner.CompletionReached` | pkgs/provisioner/main.go:299-307 | a successful preparation completes its lease |
| `Provisioner.PreparationFailed` | pkgs/provisioner/main.go:299-303 | a failed preparation leaves the lease uncompleted, unmarked and with the error, and its claimant can start another while the claim holds |
| `Provisioner.LeaseAccountedFor` | pkgs/provisioner/main.go:119-194 | over every run with fresh tokens: host, profile, user and window come from an arm request, token, machine and window from an admitted claim, and completion from a successful preparation for that claim after it |
| `Provisioner.FileFollowsMemory` | pkgs/provisioner/main.go:338-369 | the file changes only to what the memory holds, and not at all if the save fails |
| `Provisioner.DisarmDropsHost` | pkgs/provisioner/main.go:147-158 | disarming drops the lease of that host and no other, in the file too if it can be written |
| `Provisioner.UnsavedClaimBlocks` | pkgs/provisioner/main.go:180-192 | a claim that cannot be saved blocks other claims and is answered to nobody |
| `Provisioner.CompletionOutcome` | pkgs/provisioner/main.go:244-275 | what a completion does on every branch, failed writes included |
| `SilenceStripper.PadInPlace` | pkgs/vad-strip/vad-strip.py:104-113 | the in-place pass equals padding every segment up to its neighbours at once |
| `SilenceStripper.GetSpeechTimestamps` | pkgs/vad-strip/vad-strip.py:52-115 | the scan with its zero sentinel equals the scan with an explicit pending silence: the sentinel never meets a real index |
| `SilenceStripper.OutputShape` | pkgs/vad-strip/vad-strip.py:99-115 | segments are non-empty, inside the audio, ordered, disjoint, contain what they were padded from, and are at least max(0, gap - 2*pad) apart |
| `SilenceStripper.ScanKeepsInv` | pkgs/vad-strip/vad-strip.py:72-97 | invariant of the scan: alignment, order, distance, and what a pending silence holds |
| `SilenceStripper.NoSpeechLostIff` | pkgs/vad-strip/vad-strip.py:81-102 | no loud window is lost, for any audio, exactly under a condition on the durations; one short trailing segment excepted |
| `SilenceStripper.LoudWindowKept` | pkgs/vad-strip/vad-strip.py:81-113 | each loud window lies wholly inside one output segment |
| `SilenceStripper.SilenceStripped` | pkgs/vad-strip/vad-strip.py:88-97 | every found segment starts loud and holds no silence as long as the minimum |
| `SilenceStripper.SegmentsLastLongEnough` | pkgs/vad-strip/vad-strip.py:86-102 | every found segment lasted for the minimum speech when a long enough silence below the lower threshold closed it, or when the audio ended |
| `SilenceStripper.PaddingKeepsNear` | pkgs/vad-strip/vad-strip.py:104-113 | the output holds exactly the positions within the padding of some found segment |
| `SilenceStripper.KeptAudio` | pkgs/vad-strip/vad-strip.py:148-149 | the written audio is the subsequence of the input at exactly the covered positions |
| `JsonEquality.JsonEqualIffSame` | pkgs/fort-provider/main.go:511-547 | on texts that parse, jsonEqual decides whether they say the same: equal leaves, arrays element by element, objects member by member with the last of a name counting |
| `JsonEquality.SameIffDenote` | pkgs/fort-provider/main.go:528-534 | decoding identifies exactly the texts that say the same |
| `JsonEquality.JsonEqualEmpty` | pkgs/fort-provider/main.go:514-520 | the empty text equals only itself |
| `JsonEquality.JsonEqualEquivalence` | pkgs/fort-provider/main.go:513-547 | an equivalence relation on all texts, parsable or not |
| `JsonEquality.JsonEqualUnparsable` | pkgs/fort-provider/main.go:514-534 | on texts that do not parse it is identity |
| `JsonEquality.PrintUnique` | pkgs/fort-provider/main.go:536-546 | a printed value followed by a delimiter determines value and rest: the printer is injective |
| `JsonEquality.EscapeInjective` | pkgs/fort-provider/main.go:536-544 | escaped strings decode uniquely |
| `JsonEquality.LastEntryWins` | pkgs/fort-provider/main.go:528-534 | of a repeated member name the last entry counts |
| `JsonEquality.MemberOrderImmaterial` | pkgs/fort-provider/main.go:511-512 | objects with the same members in any order denote the same value |
| `StateKeys.StateKeyRoundTripIff` | pkgs/fort-provider/main.go:988-1006 | splitting a made key gives back origin and need id exactly for origins without a colon |
| `StateKeys.StateKeysInjective` | pkgs/fort-provider/main.go:990-996 | state keys identify origin and need id |
| `StateKeys.CallbackRoundTripIff` | pkgs/fort-provider/main.go:823-833 | the consumer recovers the need id from the callback path exactly for well-formed ids |
| `StateKeys.CollectedPathIsCallbackPath` | pkgs/fort-provider/main.go:1535-1550 | collection asks for the very path callbacks go to |
| `StateKeys.UnprefixedPath` | pkgs/fort-provider/main.go:1544-1549 | for ids without the capability, collection takes the last dash for the separator |
| `StateKeys.DashlessPath` | pkgs/fort-provider/main.go:1545-1548 | an id without a dash is its own path |
| `StateKeys.AddressingRoundTrip` | pkgs/fort-provider/main.go:1096-1112 | the whole trip from recorded request to the consumer's id and the declared path |
| `StateKeys.UnprefixedNeedCollides` | pkgs/fort-provider/main.go:1109-1112 | an id without the capability shares its callback path with the prefixed one |
| `ControlPlane.AgentHandler.RecordProviderRequest` | pkgs/fort-provider/main.go:1010-1024 | a request replaces its entry and forgets the cached response |
| `ControlPlane.AgentHandler.UpdateProviderResponse` | pkgs/fort-provider/main.go:1028-1051 | responses are cached for known keys only, errors never |
| `ControlPlane.AgentHandler.SaveProviderState` | pkgs/fort-provider/main.go:1054-1080 | the file holds the memory if the write succeeds, else what it held |
| `ControlPlane.AgentHandler.DispatchCallbacks` | pkgs/fort-provider/main.go:1093-1124 | each addressable key with a response gets one callback, the others none |
| `ControlPlane.AgentHandler.ProcessResponses` | pkgs/fort-provider/main.go:713-720 | the response loop caches and returns exactly the changed keys, in any iteration order |
| `ControlPlane.AgentHandler.ExecuteAsyncHandler` | pkgs/fort-provider/main.go:655-780 | memory, file and callbacks after one request |
| `ControlPlane.AgentHandler.InitializeCapability` | pkgs/fort-provider/main.go:258-356 | memory, file and callbacks after boot initialisation of one capability |
| `ControlPlane.AgentHandler.InitializeCapabilities` | pkgs/fort-provider/main.go:256-357 | boot is a run of such steps, one for each capability that asks for it |
| `ControlPlane.RunInSync` | pkgs/fort-provider/main.go:655-780 | over any run in which the last save before each restart succeeded, every cached response is the last good payload sent, up to JSON equality; and so in the file after a successful last save |
| `ControlPlane.InSyncThroughoutIff` | pkgs/fort-provider/main.go:722-726 | whatever saves fail: the memory agrees throughout exactly if every restart meets a file that does |
| `ControlPlane.ProcessInSync` | pkgs/fort-provider/main.go:713-751 | within one process the saves do not matter |
| `ControlPlane.OneCallbackPerRequest` | pkgs/fort-provider/main.go:722-751 | at most one callback per recipient and request: an update exactly if changed, a revocation exactly if no longer answered |
| `ControlPlane.RequesterAlwaysTold` | pkgs/fort-provider/main.go:656-720 | the asking origin is told the answer even if unchanged |
| `ControlPlane.InitTellsEveryone` | pkgs/fort-provider/main.go:343-353 | boot tells every answered consumer |
| `ControlPlane.EntryAfter` | pkgs/fort-provider/main.go:1010-1051 | what a request or boot makes of each entry: request, response and time |
| `ControlPlane.EntryAfterTrigger` | pkgs/fort-provider/main.go:1242-1277 | what a trigger makes of each entry; if its handler or save fails, it touches and sends nothing |
| `ControlPlane.LastRequestHeld` | pkgs/fort-provider/main.go:1010-1024 | over any run, an entry holds the body of the last request for it, unless a restart came before anything was saved again |
| `ControlPlane.RequestsHeld` | pkgs/fort-provider/main.go:1010-1080 | over any run, whatever fails, an entry is in memory or file exactly if a request for it got there, and holds the last such request |
| `ControlPlane.NamelessNeverCalled` | pkgs/fort-provider/main.go:1096-1102 | an origin that asks without a need id is never called back |
| `ControlPlane.HasErrorIff` | pkgs/fort-provider/main.go:1034-1041 | exactly which responses are errors |
| `ControlPlane.NeedIdIs` | pkgs/fort-provider/main.go:976-986 | which need id a request carries |
| `ControlPlane.UnsavedInitInSyncIff` | pkgs/fort-provider/main.go:338-353 | after an unsaved initialisation the file agrees with the consumers exactly if no answer changed |
| `ControlPlane.UnsavedRequestInSyncIff` | pkgs/fort-provider/main.go:713-751 | after an unsaved request the same, but for the asking origin's own empty answer |
| `Consumers.RevocationUnsatisfiesIff` | pkgs/fort-provider/main.go:894-926 | a revocation leaves a need unsatisfied exactly if its handler refuses the payload |
| `Consumers.SatisfiedIff` | pkgs/fort-provider/main.go:894-926 | a handler alone decides on a payload; without one any character but white space satisfies |
| `Consumers.LastToldIff` | pkgs/fort-provider/main.go:713-751 | over any run: the last callback of any kind carried the cached response exactly if the last event that sent the consumer anything sent it a good answer |
| `Consumers.ReturningAnswerNotSent` | pkgs/fort-provider/main.go:722-751 | an entry revoked by one request and answered as before by the next is not told |
| `ControlPlane.TriggerInSyncIff` | pkgs/fort-provider/main.go:1242-1300 | a trigger keeps the agreement exactly if no answer is an error |
| `Maintenance.StateFile.RunTrigger` | pkgs/fort-provider/main.go:1146-1308 | file and callbacks after a trigger, and exactly when it reports success |
| `Maintenance.StoreResponses` | pkgs/fort-provider/main.go:1243-1256 | a trigger stores every answer, errors and unknown keys included |
| `Maintenance.AskOrigins` | pkgs/fort-provider/main.go:1367-1382 | each origin is asked; those that fail are left out |
| `Maintenance.SweepCapability` | pkgs/fort-provider/main.go:1360-1412 | one capability's sweep keeps exactly the entries not positively absent and counts the others |
| `Maintenance.SweepAll` | pkgs/fort-provider/main.go:1347-1418 | the sweep over all managed capabilities; the removed count is the drop in entries |
| `Maintenance.StateFile.InvokeHandlerForGC` | pkgs/fort-provider/main.go:1555-1628 | handler results change the process's copy; callbacks go to changed known entries if asked for |
| `Maintenance.StateFile.RunGC` | pkgs/fort-provider/main.go:1312-1488 | file, count and callbacks after a whole sweep; a failed write leaves everything as it was |
| `Maintenance.RemovedIffPositivelyAbsent` | pkgs/fort-provider/main.go:1384-1412 | an entry disappears exactly on positive absence, the rest is unchanged |
| `Maintenance.AbsenceOfRecordedNeed` | pkgs/fort-provider/main.go:1394-1404 | for recorded needs that is the origin's own statement |
| `Maintenance.NamelessEntryAlwaysCollected` | pkgs/fort-provider/main.go:1544-1548 | entries without a need id are collected by the first sweep that reaches their origin |
| `Maintenance.DeclaredNeverCollected` | pkgs/fort-provider/main.go:1389-1406 | over any serialised run an entry whose origin keeps declaring it, or is unreachable, stays |
| `Maintenance.CollectedStaysAway` | pkgs/fort-provider/main.go:1408-1416 | a collected entry comes back only by a request or a trigger's output |
| `Maintenance.LastRequestStands` | pkgs/fort-provider/main.go:1010-1024 | over any serialised run the entry of a declared need holds the body of the last request for it |
| `Maintenance.RotationRepeats` | pkgs/fort-provider/main.go:1443-1484 | while nothing is removed and the handlers answer the same, every sweep of a series sends a consumer what the first one sent |
| `Maintenance.SweepSendsIff` | pkgs/fort-provider/main.go:1440-1484 | a sweep sends exactly the new answers of capabilities that have a time to live, hold a response with at most two hours of it left, and had nothing collected |
| `Maintenance.NotRenewedEarly` | pkgs/fort-provider/main.go:1459-1470 | no sweep sends anything of a capability whose responses all have more than two hours left |
| `Maintenance.RenewedInTime` | pkgs/fort-provider/main.go:1440-1484 | with sweeps at most two hours apart a declared entry is renewed in the last two hours of its response, unless that sweep collects from its capability |
| `Maintenance.SweepInSyncIff` | pkgs/fort-provider/main.go:1312-1488 | after a whole sweep the file agrees with the consumers exactly if no good answer of a rotated capability changed |
| `ForgeTokens.Provider.ProcessToken` | apps/forgejo/provider/main.go:143-188 | one token request: reuse, or revoke, generate and store |
| `ForgeTokens.Provider.ProcessEntries` | apps/forgejo/provider/main.go:73-140 | a whole run over the entries in any order, then garbage collection |
| `ForgeTokens.Provider.GarbageCollect` | apps/forgejo/provider/main.go:230-251 | files nobody asked for are revoked and, if that succeeds, removed |
| `ForgeTokens.RunKeepsLive` | apps/forgejo/provider/main.go:73-188 | if files can be removed: the cache stays live, whatever else fails, and only files asked for remain |
| `ForgeTokens.RunKeepsLiveIff` | apps/forgejo/provider/main.go:230-251 | whatever fails: the cache stays live exactly if no orphan was revoked without its file being removed while time was left on it |
| `ForgeTokens.DeadTokenAnswered` | apps/forgejo/provider/main.go:150-160 | a token so left behind is answered as it is |
| `ForgeTokens.RunAnswersLive` | apps/forgejo/provider/main.go:125-188 | if files are written: every answered token is live when the run ends, and keys with the same origin and access get the same one |
| `ForgeTokens.HistoryKeepsLive` | apps/forgejo/provider/main.go:150-185 | over any sequence of runs with a non-decreasing clock, whatever fails but the removal of files, every stored token with more than the threshold left is live |
| `ForgeTokens.AnswersLiveIff` | apps/forgejo/provider/main.go:162-187 | every answer is live in every world, and equal names get equal tokens in every world, exactly if no two entries ask for the same token anew |
| `ForgeTokens.HistoryScopes` | apps/forgejo/provider/main.go:112-128 | over any runs with any failures, write tokens exist only for approved hosts under their own names |
| `ForgeTokens.WriteTokensApproved` | apps/forgejo/provider/main.go:144-148 | a live token can write exactly if its name says so, and then its host is approved |
| `ForgeTokens.TokenNamesInjective` | apps/forgejo/provider/main.go:125-125 | token names determine origin and access |
| `ForgeTokens.ReuseIsFree` | apps/forgejo/provider/main.go:151-160 | a later run answers the same token without any call while enough time is left |
| `ForgeTokens.NameForRequest` | apps/forgejo/provider/main.go:79-125 | which token a request gets, by origin and access asked for; write access for two hosts only |
| `ForgeTokens.GrantedIffNamed` | apps/forgejo/provider/main.go:84-133 | if the forge makes tokens, a request is answered with one exactly if it is granted one |
| `ForgeTokens.AnswerHasScopes` | apps/forgejo/provider/main.go:143-187 | the answered token is live under the name of its origin and access, and can write exactly if that was asked for |
| `ForgeTokens.RotatedIff` | apps/forgejo/provider/main.go:150-187 | a token is kept exactly while more than two hours are left; otherwise a new one with a full day, stored if that succeeds |
| `ForgeTokens.OrphansRevoked` | apps/forgejo/provider/main.go:240-246 | no token is left under a listed name nobody asked for once it is revoked |
| `IdentityClients.GetAllClients` | apps/pocket-id/provider/api.go:71-96 | whatever the server answers, the pagination loop stops at the first answer that fails or says it is the last, and returns all of them in order unless one failed |
| `IdentityClients.AllPagesGathered` | apps/pocket-id/provider/api.go:71-96 | from a server that numbers a fixed set of pages it gets every client, with one request a page |
| `IdentityClients.FindClientByID` | apps/pocket-id/provider/api.go:200-207 | whether a listed client has that id |
| `IdentityClients.FindClientByName` | apps/pocket-id/provider/api.go:190-197 | the first listed client of that name |
| `IdentityClients.Provider.ProcessClient` | apps/pocket-id/provider/main.go:135-194 | one request: cached credentials, else the named client with a new secret, else recreated or created |
| `IdentityClients.Provider.CreateNewClient` | apps/pocket-id/provider/main.go:197-221 | creation with groups and secret, kept only if all of it succeeds |
| `IdentityClients.Provider.ProcessEntries` | apps/pocket-id/provider/main.go:86-132 | a whole run |
| `IdentityClients.Provider.GarbageCollect` | apps/pocket-id/provider/main.go:253-275 | listed clients that are not kept are deleted |
| `IdentityClients.CollectionSparesNamed` | apps/pocket-id/provider/main.go:253-268 | under any failures collection never deletes a client named in a non-error answer |
| `IdentityClients.AnswersBacked` | apps/pocket-id/provider/main.go:86-126 | under any failures every request is answered, with credentials only from the cache of a listed client or a successful call of this run, with an error only if malformed or a call failed |
| `IdentityClients.ClientOutcome` | apps/pocket-id/provider/main.go:135-194 | one request on every branch, by the calls that succeed |
| `IdentityClients.NewClientOutcome` | apps/pocket-id/provider/main.go:197-221 | a new client is answered exactly if creation and secret succeed, and is at the server under its name if creation took effect |
| `IdentityClients.ServerHoldsExactlyNamed` | apps/pocket-id/provider/main.go:86-132 | without failures the server ends with exactly the clients named in the answers |
| `IdentityClients.SecondRunChangesNothing` | apps/pocket-id/provider/main.go:143-159 | a second run fed the answers repeats them with no create, delete or regeneration, whatever fails in it |
| `IdentityClients.ListedClientReused` | apps/pocket-id/provider/main.go:163-193 | listed clients are reused by cache or name, unlisted ones created once |
| `CertInstall.InstallsIff` | pkgs/fort-certcheck/check.go:111-147 | exactly when a pair is installed |
| `CertInstall.ValidatePairTells` | pkgs/fort-certcheck/check.go:94-109 | a pair is valid exactly if certificate and key can be read and match; the errors tell the cases apart |
| `CertInstall.ConvergesToLatest` | pkgs/fort-certcheck/check.go:119-147 | after any deliveries the installed expiry is the maximum over the initial certificate and all usable pairs |
| `CertInstall.DeliverRaises` | pkgs/fort-certcheck/check.go:132-146 | one delivery never lowers a readable expiry and reaches the one it offers |
| `CertInstall.DeliveryOrderImmaterial` | pkgs/fort-certcheck/check.go:119-147 | order, repetition and timing of deliveries do not matter for the expiry |
| `CertInstall.FreshIff` | pkgs/fort-certcheck/check.go:50-92 | exactly which certificates are fresh; the success marker has no say |
| `CertInstall.StaleImpliesRenewal` | pkgs/fort-certcheck/check.go:84-92 | a copy that is stale to the consumer is due for renewal at the broker, then and later |

## Left out

- HTTP, FastCGI, TLS, subprocesses, systemd and nix-store: each call is an input that says how it ended.
- What happens to an overlay's services outside its own commands: crashes, starts pulled in by another overlay that wants it, failing stops, and unit files of services that only an older version had.
- Signature, RBAC and timestamp checks of requests: single-branch facts.
- The text parser of JSON, PEM and X.509 decoding, TOML and duration syntax: inputs; the sorted-key printer and everything after parsing are modelled.
- Corrupt state files of the overlay manager: they arise only from failed writes, which are not modelled there. An unreadable token file counts as one with an empty token.
- The text of generated units, bin symlinks and data-directory ownership of overlays: text and file plumbing.
- A crash in the middle of an overlay command: the invariants hold at command boundaries.
- Health durations beyond 292 years, where their conversion to nanoseconds wraps.
- The race between the provider daemon and its maintenance commands on the state file: steps are serialised, and a daemon sees a trigger's or sweep's result only after a restart.
- The content-addressed handle and status code of an accepted asynchronous request, synchronous (rpc) capabilities, and the handler's input.
- Archives of the provisioning broker: arming removes them outside the lock, so which claim a served archive was prepared for is not claimed.
- GetAllClients: assumes that some answer fails or says it is the last page; a server that never does keeps the loop running.
- Client names after a callback update, which sends an empty name: whatever name the server then holds is allowed.
- The missing service key of the OIDC provider, which answers every entry with an error, and the failed first listing, on which a run stops without an answer.
- Numbers in JSON texts are opaque atoms: two spellings of one number count as different here, while the code compares 64-bit floats.
- Rounding of the speech probabilities and of threshold - 0.15: real arithmetic.
- Dashboards, speech services, the probe, upload, mesh and attic programs, Nix modules and shell scripts.
