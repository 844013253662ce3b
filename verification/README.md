# SonarQube operator: a verified model of its protocols

The operator is a set of Kubernetes controllers. Each reads a custom resource and drives a SonarQube
server towards its spec by calls that may fail one by one, with only a short persisted status to
remember what it owns. This project models the parts where that is delicate and proves what they keep
over whole runs: any number of passes, failures at any call, users acting in between, changing specs.

`dafny verify dfyconfig.toml` checks everything.

## How it is organised

Every protocol appears twice. A module on values gives one pass as a function and whole runs as
sequences of passes, and proves the properties as lemmas. A controller module gives the same pass in
the controller's own form (objects whose fields are updated call by call, loops that fill maps and
issue calls) and each method is proved to do exactly one such pass.

| part | on values | controller form |
|---|---|---|
| vocabulary | `Outcomes`, `Text` | |
| CI token rotation | `CIToken` | `CITokenController` |
| managed sets: permissions, links, settings, groups, tokens, global permissions | `ManagedSet`, `Grants` | `Remote`, `ProjectController`, `UserController` |
| Secrets of user tokens | `UserTokens` | `UserController` |
| quality gate conditions | `QualityGate` | `QualityGateController` |
| admin bootstrap, batched restarts | `Bootstrap`, `Restart` | `InstanceController` |
| finalizers | `Finalizers` | `FinalizerController` |
| version webhook, cross-namespace policy, HTTP retries | `Versions` | `Allowlist`, `HttpRetry` |

What happens to one call is an `Outcome`: `Done`, `Failed` (nothing happened) or `Lost` (it happened, but
the caller saw an error). A row that says nothing about failures holds for all three at every call; a row
about a pass "without failures" needs `Done`, and the rows with other conditions on calls name them.

## Assumptions about the outside

- Passes of one resource do not overlap and read fresh data, except that a plugin pass may work on an old
  copy of its instance. In `CIToken` users also act between any two calls of a pass; in `UserTokens` they
  act between passes; in `Restart` each Reconcile is one step.
- A call takes effect at most once. The HTTP client repeats a request after a network error, POSTs included
  (internal/sonarqube/client.go:282-305). Where the server refuses the repetition (a live token name, a
  password that is no longer the default, an existing project, a second condition on a metric) this is
  `Lost`; setting, granting, installing and deleting twice is as once. Only a project link could be made
  twice, and that is not modelled.
- The server refuses to generate a token under a name that is live, and answers the deletion of a
  project it does not have with an error. Kubernetes refuses to create a Secret that exists.
- Granting what is granted, removing what is absent and deleting an unknown link succeed.
- The server never uses the id of a link, condition or gate again.
- A list call returns the present state in an arbitrary order. A Go map is iterated in an arbitrary order.
- Clocks, randomness and the network are parameters: the outcome of each call, the reply of each HTTP
  attempt, whether a wait was cancelled, which version "latest" is.

## What was found

These are consequences of the code as it stands; each is a lemma.

- A token that was revoked while the delete of its Secret failed leaves a dead Secret. The annotation is
  already cleared, so the next passes return early and keep it (`CIToken.SlipLeavesDeadSecret`). It is the
  only way to a dead Secret (`CIToken.NoSlipNoDeadSecret`).
- If the operator's own token was generated and its Secret was not stored, or was lost later, bootstrap
  never finishes on a server with unique token names (`Bootstrap.WedgedForever`). These are the only two ways
  into this state (`Bootstrap.WedgedExactly`), the first pass can take one (`Bootstrap.FirstPassCanWedge`), and
  nothing else stops a pass without failures from finishing (`Bootstrap.CleanPassFinishes`).
- An edit of a spec strands every item the operator added that neither the stored managed list nor the new
  spec names, and only a later listing or a person ends that (`ManagedSet.StrandedExactly`). In a settled state
  these are exactly the orphans (`ManagedSet.OrphansExactly`).
- Renaming a user token that keeps its Secret name kills the Secret although no call fails: the old token is
  revoked, the Secret exists, and the new token is never generated (`UserTokens.RenameLeavesDeadSecret`).
  `UserTokens.SecretHoldsLiveToken` says exactly which Secrets of user tokens are dead.
- A grant whose subject contains ":" is acted on as a different grant (`Grants.DecodeUndoesEncode`), and
  removed setting keys with a comma reset other keys (`ProjectController.SettingsFinalState`).
- A managed permission that someone takes away on the server is not granted again
  (`UserController.FastFormReachesTarget`), because a pass without spec changes makes no call.
- A version that does not parse lets every downgrade through in two updates
  (`Versions.UnparseableStepAdmitsAnything`).
- A plugin pass forgets its restart exactly when it changed the server and then its calls were not all seen
  to succeed (a lost reply, or a version change that uninstalled and could not install again), the patch of
  the flag had no effect, or its copy of the instance showed a flag that has come down since
  (`Restart.PassForgetsExactly`, `Restart.DeletionForgetsExactly`). Over runs, `Restart.ForgottenExactly` says
  which plugins are not loaded as installed. `Restart.FailedPatchForgetsRestart`,
  `Restart.LostReplyForgetsRestart` and `Restart.StaleCopyLosesSignal` are instances.
- A deleted resource leaves something behind on the server exactly when a deletion pass dropped the finalizer
  without a clean-up that reached the object, or a user deleted it while it had no finalizer
  (`Finalizers.OrphanedExactly`). A quality gate whose id was not stored is one case
  (`Finalizers.UnstoredGateIdLeavesOrphan`).
- A project resource whose project is already gone is never released while its instance stays ready
  (`Finalizers.AbsentProjectBlocksDeletion`), and a lost reply to the delete call is enough to get there
  (`Finalizers.LostDeleteBlocksDeletion`).
- A managed link that shares its name with another live link is deleted only once, so the name stays
  (`ProjectController.RemovedNames`).

Where code and documentation disagree the model follows the code:

- docs/architecture.md:158-168 says that finalizers never block. Projects and plugins keep theirs when the
  clean-up call fails (`Finalizers.DeletionPassKeepsFinalizer` says exactly when).
- docs/getting-started/concepts.md:159-160 says that 5xx responses are retried. Only network errors are.
- docs/how-to/token-rotation.md:19 says that a rotation updates the Secret in place and then revokes. The
  code revokes, deletes the Secret, generates and creates.
- api/v1alpha1/sonarqubeuser_types.go:64-69 says that removing a token entry deletes its Secret. The code
  revokes the token and leaves the Secret.
- The comment on initializeAdmin says that it does nothing once the token Secret exists. That needs the read
  of the Secret to succeed (`Bootstrap.SecretEndsBootstrap`).

## Model

| member | source | states |
|---|---|---|
| CIToken.TokenNameInjective | internal/controller/sonarqubeproject_controller.go:453-454 | on one instance the token name determines the project key |
| CIToken.NoTokenChurn | internal/controller/sonarqubeproject_controller.go:448-523 | when distinct projects of the instance have distinct keys and Secrets: over every run from an empty start, with failures at any call and user acts between calls, Secrets created for a project are at most 1 + annotations set by users + Secrets deleted by users |
| CIToken.PassPaysForItself | internal/controller/sonarqubeproject_controller.go:456-517 | in one pass without user acts the rotations still owed (annotation set, Secret missing) never rise, and fall by at least one for each Secret created |
| CIToken.SecretHoldsLiveToken | internal/controller/sonarqubeproject_controller.go:448-523 | when distinct projects of the instance have distinct keys and Secrets: at every pass boundary of every run an existing Secret holds the live server token of its name exactly when it is not a dead Secret, i.e. one whose delete failed after the revocation |
| CIToken.NoSlipNoDeadSecret | internal/controller/sonarqubeproject_controller.go:483-491 | in runs where no effective revocation meets an ineffective Secret delete there is never a dead Secret |
| CIToken.DeadExactlyAfterSlip | internal/controller/sonarqubeproject_controller.go:463-491 | a pass that no user interrupts makes a Secret dead exactly when it rotates an existing Secret on request, the annotation was cleared, the revocation took effect and the delete did not |
| CIToken.SlipLeavesDeadSecret | internal/controller/sonarqubeproject_controller.go:463-491 | when that happens to an existing Secret in a forced rotation no user interrupts, the pass fails, the Secret stays with a revoked token, and the next pass no user interrupts changes nothing and reports success if it can read the Secret |
| CIToken.RotationIsLocal | internal/controller/sonarqubeproject_controller.go:448-523 | whatever fails in a pass and whatever users do meanwhile, the tokens, Secrets and annotations of a project with another key and Secret, on which users do not act meanwhile, are as before |
| CIToken.FailedPatchRotatesNothing | internal/controller/sonarqubeproject_controller.go:468-481 | the annotation goes first: when clearing it fails in a forced pass, no token has changed and no Secret was made, and the Secrets are those users left, whatever they did during the pass |
| CIToken.CleanPassSettles | internal/controller/sonarqubeproject_controller.go:448-523 | from every state that runs can reach a pass without failures succeeds whatever users do during it; its Secret holds the live token except exactly when the pass found it dead and nobody had asked for a rotation; an asked-for rotation issues a value never used before; only an annotation set meanwhile is left to do |
| CIToken.SuccessMeansSecret | internal/controller/sonarqubeproject_controller.go:463-522 | a pass that reports success, whose status then names the Secret, leaves that Secret in place |
| CIToken.SuccessUsesTheNamedSecret | internal/controller/sonarqubeproject_controller.go:449-452 | that Secret is the one spec.ciToken.secretName names, or "<project name>-ci-token" when it names none, in the project's namespace |
| CIToken.PassReportsExactly | internal/controller/sonarqubeproject_controller.go:448-523 | a pass no user interrupts reports success exactly when it read that the Secret is there and the annotation does not say "true", or it rotated with every call but the revocation succeeding and the token name "<key>-ci-<instance>" free after the revocation |
| CIToken.PassLeavesExactly | internal/controller/sonarqubeproject_controller.go:456-502 | whatever fails in such a pass, the annotation ends cleared exactly when it said "true", the Secret was looked up and the patch took effect; the token of the project's name ends live exactly when it was live and not revoked by a rotation, or a new one was generated |
| CIToken.PassLeavesSecretExactly | internal/controller/sonarqubeproject_controller.go:463-517 | and the Secret ends present exactly when it was and no rotation deleted it, or it was created for a token the pass had seen generated |
| CITokenController.ReconcileCIToken | internal/controller/sonarqubeproject_controller.go:448-523 | the method over server and cluster objects does exactly one pass of the protocol for every pattern of failures and user acts; exactly on success it names in the status the Secret of the configured or default name, which then exists |
| CITokenController.RevokeAndReissue | internal/controller/sonarqubeproject_controller.go:483-522 | the second half of a rotation, from the best-effort revocation to the new Secret, as one rotation of the protocol |
| CITokenController.GenerateAndStore | internal/controller/sonarqubeproject_controller.go:493-522 | a fresh token into a new Secret, as one issue step of the protocol, user acts between the two calls included |
| ManagedSet.OneFinalState | internal/controller/sonarqubeproject_controller.go:332-387 | whatever calls a pass makes within what it owns and in whatever order, it ends at (live without what was managed and is no longer wanted) plus wanted exactly when it removed everything dropped and added everything wanted |
| ManagedSet.TargetItem | internal/controller/sonarqubeproject_controller.go:344-378 | item by item, that state has what the spec wants and keeps what is live and not managed |
| ManagedSet.UnlistedItemsAreUntouched | internal/controller/sonarqubeproject_controller.go:327-331 | over every run with changing specs, failed passes and lost status updates, an item no spec so far listed was never added or removed by the operator, and is live exactly when people alone would have left it live |
| ManagedSet.StrandedExactly | internal/controller/sonarqubeproject_controller.go:344-385 | over every run an item the operator added is known to neither the managed list nor the spec exactly when some edit dropped it before a stored pass wrote it down, and since then no spec listed it and nobody removed it; no pass ever does this or undoes it |
| ManagedSet.OrphansExactly | internal/controller/sonarqubeproject_controller.go:344-385 | after a stored pass of the current spec, the items the operator added, nobody removed and the spec does not list are exactly those |
| ManagedSet.OrphansComeFromSkippedSpecs | internal/controller/sonarqubeproject_controller.go:344-385 | in particular each of them was in a spec that was replaced before any of its passes was stored |
| ManagedSet.PatientRunsLeaveNoOrphans | internal/controller/sonarqubeproject_controller.go:344-385 | if every spec gets a stored pass before it is replaced, then after each stored pass there is no orphan, however many passes failed |
| ManagedSet.ImpatienceLeavesAnOrphan | internal/controller/sonarqubeproject_controller.go:380-385 | without that, a three-step run leaves an item that is live, added by the operator and in no spec although the last spec is settled |
| Grants.DecodeUndoesEncode | internal/controller/sonarqubeproject_controller.go:334-353 | the key of a user or group grant decodes to the encoded grant exactly when the subject has no ":", for every permission text |
| Grants.DecodeIsInjective | internal/controller/sonarqubeproject_controller.go:348-352 | different keys never stand for the same grant |
| Grants.CallsMatchSpec | internal/controller/sonarqubeproject_controller.go:333-377 | the grants the calls act on are the grants the spec lists exactly when no listed subject has a ":" |
| Grants.ListedExactly | internal/controller/sonarqubeproject_controller.go:333-342 | a spec lists exactly, for each permission of each entry, the grant to the entry's group if it names one and to its user otherwise |
| Grants.KeysExactly | internal/controller/sonarqubeproject_controller.go:335-341 | each of them is stored as "group:<name>:<permission>" or "user:<login>:<permission>" |
| Grants.OtherKindsArePassedOver | internal/controller/sonarqubeproject_controller.go:348-360 | among three-part keys exactly those of kind "user" and "group" lead to a call |
| Grants.ShortKeysArePassedOver | internal/controller/sonarqubeproject_controller.go:348-351 | a key with fewer than two ":" leads to none |
| Grants.UnwantedKeyUnwantedGrant | internal/controller/sonarqubeproject_controller.go:344-351 | removing a key that is not desired never removes a grant that is |
| Grants.EqualGrantsEqualLists | internal/controller/sonarqubeproject_controller.go:380-385 | specs with equal grant sets store equal managed lists, however the map was iterated |
| ProjectController.DesiredKeys | internal/controller/sonarqubeproject_controller.go:333-342 | the nested loops collect exactly the keys of the grants the spec lists; the group wins over the user |
| ProjectController.RemoveDropped | internal/controller/sonarqubeproject_controller.go:344-364 | removes only grants of managed keys that left the spec, all of them when no call fails |
| ProjectController.AddDesired | internal/controller/sonarqubeproject_controller.go:366-378 | for every iteration order grants only what is desired, all of it when no call fails |
| ProjectController.ReconcileProjectPermissions | internal/controller/sonarqubeproject_controller.go:332-387 | every pass owns what it does; it fails exactly when a call failed and then keeps the managed list; a successful pass ends at the one final state, in which every grant with a ":"-free subject that an entry asks for, by its group or else its user, is live, and stores the strictly sorted list of the spec's keys |
| ProjectController.UnlistedGrantIsUntouched | internal/controller/sonarqubeproject_controller.go:327-387 | over whole runs of specs with ":"-free subjects, a grant no spec listed is never touched |
| ProjectController.IdsByName | internal/controller/sonarqubeproject_controller.go:259-262 | the map built from the list has exactly the live names, each with the id of a live link of that name, duplicate names included |
| ProjectController.DeleteDropped | internal/controller/sonarqubeproject_controller.go:269-279 | deletes one link of each live name that is managed and no longer in the spec, for all of them when no call fails, and no other link |
| ProjectController.CreateMissing | internal/controller/sonarqubeproject_controller.go:281-289 | creates only spec links whose name was not live, all of those names when no call fails; existing links stay as they are; distinct names stay distinct when the spec has no duplicates |
| ProjectController.RemovedNames | internal/controller/sonarqubeproject_controller.go:269-279 | deleting one link of each name takes a name away exactly when no other live link has it |
| ProjectController.ReconcileProjectLinks | internal/controller/sonarqubeproject_controller.go:253-297 | on names every pass owns what it does; the live names end as its calls say, on success at the one final state, exactly when each name it removed had one live link; distinct names stay distinct; links that stay keep their URL, even a wrong one, and new ones are the spec's |
| ProjectController.ReconcileProjectSettings | internal/controller/sonarqubeproject_controller.go:302-325 | for every iteration order and failure the settings are the old ones overridden by the keys set so far, less the reset keys once all are set; the managed list changes only on success |
| ProjectController.SettingsFinalState | internal/controller/sonarqubeproject_controller.go:308-318 | the reset takes exactly the dropped keys if and only if none of them has a comma, and then a successful pass ends at (live without the dropped keys) overridden by the spec |
| ProjectController.SettingsPassOwnsItsKeys | internal/controller/sonarqubeproject_controller.go:302-325 | with comma-free dropped keys every settings pass, complete or not, owns what it does, so the run results hold for settings |
| Remote.ResetReachesItsKeys | internal/sonarqube/client.go:615-624 | joining keys with commas asks for exactly those keys if and only if no key has a comma |
| UserController.ReconcileGroups | internal/controller/sonarqubeuser_controller.go:303-344 | adding before removing, every pass owns what it does and a successful one ends at the one final state; status changes only on success; with no groups in spec and status there is no call |
| UserController.ReconcileUserGlobalPermissions | internal/controller/sonarqubeuser_controller.go:415-446 | every pass owns what it does; a successful one grants exactly what is new and removes exactly what was dropped; when spec and status agree it makes no call |
| UserController.FastFormRefinesSimpleForm | internal/controller/sonarqubeuser_controller.go:410-444 | granting only what is new reaches the same state as granting everything again, exactly when every managed wanted permission is still live |
| UserController.FastFormReachesTarget | internal/controller/sonarqubeuser_controller.go:410-444 | and under exactly that condition this state is the one final state of all managed sets |
| UserController.ReconcileUserTokens | internal/controller/sonarqubeuser_controller.go:350-408 | does exactly one pass of the protocol in `UserTokens` and owns what it does on token names; no existing Secret is changed or deleted; every new Secret holds the live token of a spec entry naming it; after success every spec entry's Secret exists |
| UserController.GenerateMissing | internal/controller/sonarqubeuser_controller.go:366-400 | one entry: other tokens stay as they are, and the only possible new Secret holds the token just made for the entry |
| UserTokens.SecretHoldsLiveToken | internal/controller/sonarqubeuser_controller.go:350-408 | over every run with changing specs, failures at any call, lost status updates and users deleting Secrets, an existing Secret holds a live token exactly when no pass since its making has revoked the name it was made under, and then it holds the token of that name |
| UserTokens.DeadExactly | internal/controller/sonarqubeuser_controller.go:356-364 | a Secret is dead exactly when in some pass the name it was made under was managed and out of the spec, the revocations before it succeeded and its own took effect, and no user has deleted the Secret since; listing the entry again does not help |
| UserTokens.RenameLeavesDeadSecret | internal/controller/sonarqubeuser_controller.go:356-407 | renaming an entry that keeps its Secret, with no call failing, ends with the Secret dead, no live token and the new name stored as managed |
| QualityGate.KeyInjective | internal/controller/sonarqubequalitygate_controller.go:273-275 | when metric and operator have no bar, equal keys mean equal conditions, for every value text |
| QualityGate.BarMovesBetweenParts | internal/controller/sonarqubequalitygate_controller.go:273-275 | with a bar in the metric, different conditions share a key |
| QualityGate.UsefulCallLowersMeasure | internal/controller/sonarqubequalitygate_controller.go:245-267 | removing an unwanted or adding a missing condition lowers (unwanted live + missing wanted) by exactly one |
| QualityGate.CallLowersByAtMostOne | internal/controller/sonarqubequalitygate_controller.go:245-267 | no call lowers it by more than one, and only such a call lowers it at all |
| QualityGate.AfterRemovals | internal/controller/sonarqubequalitygate_controller.go:245-252 | the removals take away the unwanted conditions of the list and nothing else, each at the right moment |
| QualityGate.PlanIsUsefulExactly | internal/controller/sonarqubequalitygate_controller.go:232-270 | every call of a pass is useful in the state where it is made exactly when no two spec entries share a key that is not live, and then all of them leave exactly the wanted keys live |
| QualityGate.CompletePassSyncs | internal/controller/sonarqubequalitygate_controller.go:232-270 | for every spec, duplicates included, a pass that makes all its calls ends at distance zero |
| QualityGate.PlanHasMeasureCalls | internal/controller/sonarqubequalitygate_controller.go:232-270 | for every spec a pass needs at least as many calls as the gate is away from it, and exactly as many if and only if no two spec entries share a key that is not live |
| QualityGate.PassConverges | internal/controller/sonarqubequalitygate_controller.go:232-270 | for every spec k calls of a pass bring the gate at most k closer and all its calls bring it to zero; when no two spec entries share a key that is not live, k calls bring it exactly k closer and only all of them bring it to zero |
| QualityGate.ZeroMeansExactSync | internal/controller/sonarqubequalitygate_controller.go:228-231 | when no metric or operator, live or wanted, has a bar: distance zero means that the live conditions are exactly the wanted ones, as triples |
| QualityGate.RunConserves | internal/controller/sonarqubequalitygate_controller.go:232-270 | over any run of passes with a fixed spec, failed anywhere, calls made so far + distance left are at least the distance at the start, and equal to it when no two spec entries share a key that was not live at the start |
| QualityGate.CompletedRun | internal/controller/sonarqubequalitygate_controller.go:232-270 | for every spec, once a pass was complete the gate is in sync for good and no later pass makes a call; when no two spec entries share a key that was not live at the start, the run has made exactly as many calls as the starting distance |
| QualityGate.AdditionKeepsOnePerMetric | internal/controller/sonarqubequalitygate_controller.go:260-267 | when metrics and operators have no bar, the spec lists each metric once and no two live conditions share one: on a gate without unwanted conditions, adding a missing condition of the spec meets no condition of its metric |
| QualityGate.EveryStateHasOnePerMetric | internal/controller/sonarqubequalitygate_controller.go:245-267 | when metrics and operators have no bar and live and wanted conditions have at most one per metric, so has every state between two calls of a pass |
| QualityGate.AddingFirstDoublesTheMetric | internal/controller/sonarqubequalitygate_controller.go:245-267 | this depends on removing first: changing a threshold by adding first passes through two conditions on one metric |
| QualityGateController.NextRemoval | internal/controller/sonarqubequalitygate_controller.go:245-252 | going on by one list entry the loop advances by exactly that entry's call of the plan, or not at all |
| QualityGateController.NextAddition | internal/controller/sonarqubequalitygate_controller.go:260-267 | the same for the loop of additions |
| QualityGateController.ReconcileConditions | internal/controller/sonarqubequalitygate_controller.go:232-270 | the two sets and two loops carry out a prefix of the plan for every list order and failure, the whole plan exactly when no call fails |
| QualityGateController.SyncGate | internal/controller/sonarqubequalitygate_controller.go:160-206 | read and sync, for every spec: success means distance zero; calls that took effect + distance left are at least the distance before, and equal to it when no two spec entries share a key that was not live |
| Bootstrap.PasswordMovesOnce | internal/controller/sonarqubeinstance_controller.go:272-349 | when the target is not the default password: over every run, spurious failures of the password check included, the password is the default or the target and moved at most once; a token Secret exists only once the target is in force and holds the live token |
| Bootstrap.TargetStays | internal/controller/sonarqubeinstance_controller.go:297-307 | when the target is not the default password: once it is in force no run of passes moves the password again |
| Bootstrap.SecretEndsBootstrap | internal/controller/sonarqubeinstance_controller.go:275-287 | once the token Secret exists no pass changes anything, and it makes no password or token call exactly when reading the Secret succeeds or the password Secret is unusable |
| Bootstrap.WedgedForever | internal/controller/sonarqubeinstance_controller.go:309-333 | a live token whose value is lost stays so over every run: no pass revokes first |
| Bootstrap.WedgedExactly | internal/controller/sonarqubeinstance_controller.go:272-349 | when the target is not the default password: over every run from the start a live token has lost its value exactly when some pass had it generated and its reply or the Secret was lost, or a stored Secret was deleted |
| Bootstrap.StepWedgesExactly | internal/controller/sonarqubeinstance_controller.go:297-333 | a pass does that exactly when it finds no Secret, can read a non-empty password, reaches the token call with the target in force, the token is generated, and its reply or the creation of the Secret fails |
| Bootstrap.FirstPassCanWedge | internal/controller/sonarqubeinstance_controller.go:309-333 | a first pass in which only the last call fails does it |
| Bootstrap.CleanPassFinishes | internal/controller/sonarqubeinstance_controller.go:272-349 | when the target is neither empty nor the default password: from every reachable state a pass without failures finishes the bootstrap exactly when it is not wedged, and leaves the target in force |
| Bootstrap.PassReportsExactly | internal/controller/sonarqubeinstance_controller.go:272-349 | a pass reports success exactly when it read that the Secret is there, or it found none, its token name was free, the password Secret was usable, the target was seen in force or the default password "admin" seen changed to it, and the token and the Secret were seen made |
| Bootstrap.SuccessMeansSecret | internal/controller/sonarqubeinstance_controller.go:275-349 | in both cases the Secret is there afterwards |
| Bootstrap.PassMovesPasswordExactly | internal/controller/sonarqubeinstance_controller.go:297-307 | a pass moves the password exactly from "admin", to the target, when the check of the target did not succeed and the change took effect |
| Bootstrap.PassMakesSecretExactly | internal/controller/sonarqubeinstance_controller.go:309-336 | it makes the Secret exactly after a generation it saw succeed, with the token just issued, and never touches one that exists |
| Restart.RestartsAreBatched | internal/controller/sonarqubeinstance_controller.go:228-249 | over every run of passes of an instance that is not being deleted, with all failures and old copies, restarts + (flag raised) are at most effective plugin changes + restarts whose flag was not cleared in the stored status |
| Restart.ChangesBetweenPassesCostOneRestart | internal/controller/sonarqubeplugin_controller.go:288-300 | however many plugin passes lie between two instance passes, the next clean instance pass restarts once if the flag is up and not at all otherwise, and after a restart everything installed is loaded |
| Restart.NoForgottenRestart | internal/controller/sonarqubeplugin_controller.go:200-212 | in runs in which an install or uninstall that failed had no effect, every flag patch succeeds and no copy shows a flag that has come down: in every state with the flag down, the plugins whose loaded and installed versions differ are exactly those that a version change uninstalled and could not install again since the last restart |
| Restart.PassForgetsExactly | internal/controller/sonarqubeplugin_controller.go:165-300 | with the flag down, the plugin loaded as installed and the instance not being deleted, a pass leaves the flag down and the plugin different exactly when it changed the server and its calls were not all seen to succeed, or the flag patch had no effect, or its copy of the instance showed the flag up |
| Restart.DeletionForgetsExactly | internal/controller/sonarqubeplugin_controller.go:307-340 | the same for the uninstall of a deleted plugin |
| Restart.PluginPassForgets | internal/controller/sonarqubeplugin_controller.go:165-340 | with the flag down afterwards, a pass makes a plugin differ exactly when it is a pass of that plugin that changed the server: a change is never undone within its pass and touches no other plugin |
| Restart.ForgottenExactly | internal/controller/sonarqubeplugin_controller.go:165-340 | over every run of an instance that is not being deleted, lost replies, failed patches and old copies included: with the flag down a plugin's loaded and installed versions differ exactly when since the last restart some pass of it changed the server and left the flag down, and the last such pass left it other than it is loaded |
| Restart.LostReplyForgetsRestart | internal/controller/sonarqubeplugin_controller.go:244-268 | a first install whose reply is lost leaves the plugin unloaded with the flag down, and the plugin's next pass changes nothing |
| Restart.StaleCopyLosesSignal | internal/controller/sonarqubeplugin_controller.go:290-300 | a run without any failure in which the instance restarts for one plugin while a pass of another works on a copy taken before ends with the flag down and the second plugin installed and not loaded |
| Restart.NextInstallRaisesFlag | internal/controller/sonarqubeplugin_controller.go:257-273 | in such runs the next successful install of such a plugin raises the flag; until then its passes that reach the install change nothing |
| Restart.CleanPassInstalls | internal/controller/sonarqubeplugin_controller.go:165-231 | a plugin pass without failures, on an instance that stays and a copy that shows no old flag, leaves its plugin as asked and all others alone, raises the flag exactly when there was something to do, and pays one change more for a version change |
| Restart.CleanDeletionUninstalls | internal/controller/sonarqubeplugin_controller.go:307-340 | under the same conditions a deletion removes its plugin and no other, and raises the flag exactly when it was installed |
| Restart.InstancePassExactly | internal/controller/sonarqubeinstance_controller.go:174-262 | after a status update that took effect the instance is Ready exactly when the server answered, is up and initialized and no restart was due; the flag comes down exactly when a due restart was seen to succeed; without the update nothing stored changes |
| Restart.BlockedPassChangesNothing | internal/controller/sonarqubeplugin_controller.go:102-188 | a plugin pass on an instance that is not ready, without a token, with a source URL or with a failed list changes nothing; a deletion likewise, source URL aside |
| Restart.AbsentPluginExactly | internal/controller/sonarqubeplugin_controller.go:200-276 | an absent plugin ends installed, in the asked version or the latest, exactly when the install took effect, which after a demand for consent means that the acknowledgement succeeded and the one retry took effect; the flag is raised exactly when that was seen and the patch took effect |
| Restart.OtherVersionExactly | internal/controller/sonarqubeplugin_controller.go:205-276 | a plugin in another version ends in the old version, absent or in the asked one according to the uninstall and the install, which is tried only after an uninstall seen to succeed |
| Restart.DeletionExactly | internal/controller/sonarqubeplugin_controller.go:307-340 | a deletion removes the plugin exactly when the uninstall took effect, and raises the flag exactly when that was seen and the patch took effect |
| Restart.FailedPatchForgetsRestart | internal/controller/sonarqubeplugin_controller.go:294-299 | when the flag patch has no effect after a first install, the plugin is not loaded, the flag is down, and the plugin's next pass changes nothing |
| InstanceController.InitializeAdmin | internal/controller/sonarqubeinstance_controller.go:272-349 | the method over server and instance objects does exactly one bootstrap pass for every pattern of failures, and success means that the token Secret exists |
| InstanceController.ReconcileInstance | internal/controller/sonarqubeinstance_controller.go:174-262 | health check, bootstrap, restart and status update together take one step of both protocols; the stored instance is Ready exactly when the server answered, is up, the bootstrap succeeded and no restart was due, unless the update had no effect |
| InstanceController.RestartIfRequired | internal/controller/sonarqubeinstance_controller.go:226-262 | on a server that is up and initialized the flag is cleared in the stored status only after a restart the caller saw succeed |
| InstanceController.SignalInstanceRestart | internal/controller/sonarqubeplugin_controller.go:290-300 | afterwards the flag is up if it was, or if the copy does not show it up, the instance is not going away and the patch took effect |
| InstanceController.InstallPlugin | internal/controller/sonarqubeplugin_controller.go:233-286 | one install step of the protocol; it reports success exactly when the install, or after a demand for consent the acknowledgement and the one retry, were seen to succeed |
| InstanceController.ReconcilePlugin | internal/controller/sonarqubeplugin_controller.go:165-231 | search loop and three cases take one plugin step for every list order; a pass that is not waiting returns an error exactly when the list, the uninstall or the install it needed failed |
| InstanceController.DeletePlugin | internal/controller/sonarqubeplugin_controller.go:307-340 | search loop, uninstall and signal take one deletion step for every list order; it returns an error exactly when the list or the uninstall it needed failed |
| Finalizers.NoCreateWithoutFinalizer | internal/controller/sonarqubeproject_controller.go:134-141 | over every run of every kind of resource no create or install call, reinstalls included, is made while the stored resource lacks its finalizer |
| Finalizers.PassCreatesExactly | internal/controller/sonarqubeproject_controller.go:106-190 | a pass makes at most one create or install call, and makes it exactly for a resource not being deleted, with a ready instance, a readable token, its finalizer stored, a lookup that succeeded and a spec that does not block, when the object is absent or is a plugin it saw uninstalled for its version |
| Finalizers.PassKeepsFinalizerExactly | internal/controller/sonarqubeproject_controller.go:84-170 | what becomes of the finalizer on a missing, unreadable, unusable or usable instance; a pass that only waits for its instance changes nothing |
| Finalizers.PassStoresGateIdExactly | internal/controller/sonarqubequalitygate_controller.go:160-225 | the id in the status changes exactly for gates whose pass got through to a status update that took effect, to the id of the gate on the server |
| Finalizers.DeletionRemovesExactly | internal/controller/sonarqubeplugin_controller.go:307-340 | a deletion pass on a usable instance removes the object exactly when its clean-up call took effect, which for plugins needs the list and for gates the right id |
| Finalizers.CleanPassProvides | internal/controller/sonarqubeproject_controller.go:106-190 | a pass without failures leaves the object on the server under a stored finalizer, with a create call exactly when the object was absent or is a plugin in the wrong version |
| Finalizers.DeletionPassKeepsFinalizer | internal/controller/sonarqubeproject_controller.go:152-170 | with a working Kubernetes update a deletion pass keeps the finalizer exactly when the instance is ready, its token readable and a project or plugin clean-up failed; users and gates are always released |
| Finalizers.CleanDeletionReleases | internal/controller/sonarqubequalitygate_controller.go:277-295 | a deletion pass without failures releases everything but a project the server does not have, and leaves an object behind only for a gate without a known id |
| Finalizers.AbsentProjectBlocksDeletion | internal/controller/sonarqubeproject_controller.go:525-540 | a project resource whose project is gone is released by no sequence of passes on a usable instance |
| Finalizers.LostDeleteBlocksDeletion | internal/controller/sonarqubeproject_controller.go:525-540 | one deletion pass whose delete call takes effect and loses its reply leaves a project resource in that state |
| Finalizers.PassOrphansExactly | internal/controller/sonarqubeuser_controller.go:140-158 | a pass releases a resource and leaves what the operator made exactly when it drops the finalizer of a resource under deletion while the instance is missing or unusable, or a user's deactivation had no effect, or a gate's deletion had none or had another id |
| Finalizers.OrphanedExactly | internal/controller/sonarqubeuser_controller.go:58-158 | over every run a resource that is gone has left what the operator made exactly when such a pass, or a user's deletion while it had no finalizer, released it and the object has not vanished since |
| Finalizers.PassLosesGuardExactly | internal/controller/sonarqubequalitygate_controller.go:140-225 | a pass leaves what the operator made without a finalizer (or a gate without its id) in exactly two ways: the finalizer goes while the instance is missing or unusable or a user or gate clean-up failed, or a gate is created and its id is not stored |
| Finalizers.UsableInstanceLeavesNoOrphan | internal/controller/sonarqubeplugin_controller.go:301-340 | for projects and plugins, over every run whose passes all meet a usable instance, whatever else fails and whoever else acts, a resource that is gone left nothing the operator made |
| Finalizers.UnstoredGateIdLeavesOrphan | internal/controller/sonarqubequalitygate_controller.go:282-294 | a gate made by the operator whose id was not stored is left on the server by its deletion |
| FinalizerController.Resource.Reconcile | internal/controller/sonarqubeuser_controller.go:58-135 | the order of instance lookup, deletion, readiness, finalizer and object, on a stored resource updated step by step, takes one step of the finalizer protocol |
| FinalizerController.Resource.FinalizeDeletion | internal/controller/sonarqubequalitygate_controller.go:140-158 | the clean-up is tried only on a usable instance; otherwise the finalizer goes at once |
| FinalizerController.Resource.HandleDeletion | internal/controller/sonarqubeuser_controller.go:280-298 | the four kinds of clean-up, with the errors that block and those that do not |
| Versions.ParseRoundTrip | api/v1alpha1/sonarqubeinstance_webhook.go:97-111 | the decimal text of every 64-bit major and minor, joined by ".", alone or followed by "." and any text, parses to that pair |
| Versions.RefusedExactlyOnDowngrade | api/v1alpha1/sonarqubeinstance_webhook.go:77-95 | an update is refused exactly when both versions parse and the new pair is lexicographically below the old one |
| Versions.AdmittedByNumbers | api/v1alpha1/sonarqubeinstance_webhook.go:77-111 | from "a.b" to "c.d", alone or with further pieces, an update is admitted exactly when c > a, or c = a and d >= b |
| Versions.AtoiRefusesLargeNumbers | api/v1alpha1/sonarqubeinstance_webhook.go:102-109 | a major or minor outside the 64-bit range does not parse |
| Versions.AtoiRefusesOtherText | api/v1alpha1/sonarqubeinstance_webhook.go:102-109 | neither does one with anything but digits after an optional sign |
| Versions.ChainNeverDowngrades | api/v1alpha1/sonarqubeinstance_webhook.go:77-95 | along every chain of admitted updates whose versions all parse no later version is below any earlier one |
| Versions.UnparseableStepAdmitsAnything | api/v1alpha1/sonarqubeinstance_webhook.go:81-88 | through a version that does not parse any version is reached from any other |
| Versions.NameWithoutDotDoesNotParse | api/v1alpha1/sonarqubeinstance_webhook.go:98-101 | every text without a dot is such a version |
| Allowlist.ValidateInstanceRefNamespace | api/v1alpha1/cross_namespace_validator.go:55-79 | admits exactly what the policy allows: always within the namespace, never when the instance cannot be read |
| Allowlist.AllowlistAdmitsExactlyItsNames | api/v1alpha1/cross_namespace_validator.go:66-78 | for every non-empty list of solid comma-free names other than a lone "*", with any white space around each, a reference from another namespace is admitted exactly when the caller is in the list |
| Allowlist.BlankAdmitsNobody | api/v1alpha1/cross_namespace_validator.go:66-69 | a missing or blank annotation admits no other namespace |
| Allowlist.LoneStarAdmitsEverybody | api/v1alpha1/cross_namespace_validator.go:66-72 | a lone "*", with any white space around it, admits every namespace |
| HttpRetry.Do | internal/sonarqube/client.go:282-305 | at most one attempt more than there are waits, every one but the last a network error, none after a cancelled wait; the waits are those configured, or half a second and a second, in order, and all of them are used before a network error is returned; the reply is that of the last attempt made |
| HttpRetry.UncancelledReplyIsDetermined | internal/sonarqube/client.go:282-305 | without cancellation the reply is that of the first attempt that is not a network error, else the error of the last allowed attempt |
| HttpRetry.RetriedExactly | internal/sonarqube/client.go:282-305 | a success or an error the server answered with ends the loop at once; a network error is returned only after all waits, without its body |
| HttpRetry.UnconfiguredMakesThreeAttempts | internal/sonarqube/client.go:226-228 | a client without configured waits gives up after exactly three network errors |
| HttpRetry.SomethingSettles | internal/sonarqube/client.go:282-305 | for every script of attempts there is a number of attempts that settles the request |

## Left out

- Restart.NoForgottenRestart: only under the conditions its row names; ForgottenExactly has none of them. Both are about an instance that is not being deleted.
- Restart.RestartsAreBatched: each Reconcile is one atomic step, so a plugin pass never runs inside an instance pass; old copies are the part of that overlap that is modelled.
- Finalizers.OrphanedExactly: two custom resources for one server object are not modelled.
- UserController.ReconcileUserTokens: does not promise that every wanted token is live, because a token is generated only for a missing Secret; SecretHoldsLiveToken and RenameLeavesDeadSecret say what happens instead.
- UserTokens.SecretHoldsLiveToken: users delete Secrets between passes, not between two calls of a pass.
- ProjectController.ReconcileProjectLinks: which of several live links with one name is deleted is left open.
- HttpRetry.Do: when a context ends just as its wait does, Go may take either branch; cancelled(i) stands for the branch taken.
- CIToken.NoTokenChurn: Secrets made by users under the operator's names are not modelled, and enabled and secretName of a project do not change.
- The names of the operator's admin token and its Secret: they are parameters of the bootstrap.
- Errors returned by Reconcile, which decide about requeueing, are modelled for the CI token, the managed sets, the gate, the bootstrap and the plugins, not for the finalizer steps.
- Expiry dates of tokens, requeue delays, rate limits and all other wall-clock time.
- HTTP, JSON, URLs and headers in internal/sonarqube/client.go, apart from the retry loop and the comma joining.
- Main branch, tags, visibility, gate assignment, user name, e-mail and SCM accounts: single calls whose errors do not matter or end the pass.
- StatefulSet, Service, Ingress and environment of an instance: construction of records.
- Group, permission template, webhook, backup and branch rule controllers: smaller versions of the same shapes.
- Cluster edition check and IsRiskConsentRequired: single comparisons.
- Status conditions, phases other than Ready, events, metrics and logging.
- Stale caches, optimistic locking, and what a patch response does to the object in memory.
