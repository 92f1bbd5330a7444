# The virtual lab's network control plane

This project models the part of the virtual lab that turns a table of network groups into VLANs, rule lists and
guest files, and that applies them to live appliances in a way a crash cannot leave half done. It proves what those
mechanisms promise, for every input, every crash point and every interleaving the model admits.

| part | files |
|---|---|
| Gateway two-phase applier and its driver | `GatewayPaths`, `GatewayGuest`, `GatewayProtocol`, `GatewayCaught`, `GatewayHollow`, `GatewayRuns`, `GatewayHazard`, `GatewayStale`, `GatewayHost`, `GatewayFiles`, `GatewayCoordinator` |
| Access appliance: the include line and the trunk | `AccessInclude`, `TrunkText`, `AccessTrunk`, `TrunkRuns` |
| Group lifecycle, allocator and projection | `Slots`, `Projection`, `ProjectionLaws`, `Groups`, `GroupRuns`, `GroupHistories` |
| Selections, teardown, reservations, retries | `Views`, `Teardown`, `Quota`, `Retry` |
| Policy compilation | `Allowlists`, `DomainNames`, `GatewayPlan`, `Squid`, `SquidMeaning`, `SquidRestart`, `Nftables`, `VmFirewall`, `VmIsolation`, `AcrossLayers` |
| Executors and arithmetic | `VmFirewallApply`, `Saga`, `SagaDriver`, `Words`, `AddressSelection` |
| Shared vocabulary | `Base`, `Decimal`, `Strings` |

Code that changes things step by step is a class or a method with loops, proved against functions on values
(`GuestHost` against `GatewayRuns.Step`, `Database` against `Groups.Step`, and so on); runs, invariants and meanings are
lemmas about those functions. Calls to the outside are parameters: which write is the last to succeed, which reply is
lost, in which order a listing comes back, how long a sleep takes.

## How the main results fit together

- **Two-phase apply.** A stage is a list of writes, so a crash is a prefix, and its own timer may elapse between any two
  of them. From every point behind the arming the generated script gives back the exact files and VLAN links
  (`ScriptRestores`), because the flattened backup name is injective on the allowlist even though `_` is legal in
  interface names (`BackupNameInjective`). A script whose backups are gone removes exactly what it sweeps up to its first
  missing copy (`Sweep`). An invariant over all runs of stages begun without a timer, whatever is on record, whether
  commits stop their timers or not, then gives atomicity with each exception spelled out (`TwoPhaseAtomicity`,
  `ReachableAtomicity`), and the driver commits only what it has proved, with the timer still armed
  (`ApplyGatewayPolicy`).
- **Lifecycle.** An invariant that every guarded statement keeps under any interleaving, with exactly one exception
  (`StepKeepsExactly`), makes the allocator's inconsistency errors unreachable, fixes an allocation for as long as its
  row lives, and makes the five selections of the planners coincide. A teardown runs its steps with other requests'
  statements in between.
- **Policy.** Squid, nftables and the VM firewalls are first-match lists with an evaluator each. What a list admits is
  characterised exactly, and the layers are tied together from the tables to a packet's arrival (`EndToEnd`).

## Where the code falls short of its own promise

Each of these is stated as the exact condition under which the promise holds, or as a concrete run.

- The timer is armed before the slow part of a stage, and nothing stops a stage that outlives it. Firing then mends the
  guest under the stage's hands and the remaining writes are made unguarded. The old guest is there at the end exactly
  when each of those writes found what it would have left (`GatewayCaught.CaughtExactly`, `StageOutlives`). The answer then reports no
  armed timer, the driver sends a rollback instead of a commit, and that rollback restores everything, since backups and
  script are still there (`CaughtRollsBack`, `CaughtLeavesExactly`). If it is lost, the guest stays as the stage left it.
  The trunk command behaves alike (`AccessTrunk.CaughtExactly`).
- The anti-stacking guard of the Gateway applier refuses a stage only over a recorded transaction *and* an armed timer,
  and so lets it pass in two states it should not.
  - With a timer and no record: the record is the last thing a stage writes. After a stage died in between, a second one
    backs up half-installed content. It is harmless exactly when the first stage had not changed a file yet
    (`GuardAsWrittenExact`, `HazardReached`).
  - With a record and no timer, as a stage that outlived its timer leaves it. A second stage that dies before it has
    written its own script has cleared the backups of the old one, and rolling the old transaction back then removes
    files that were there before (`StaleRollbackReached`). It is harmless exactly when nothing is there that this rollback
    could take away (`StaleGuardExact`). A second stage that armed and died later can be committed under the old
    identifier, which keeps what it had half installed (`StaleCommitReached`); the files are its target exactly when the
    writes it did not make would have changed none (`StaleCommitExact`).

  Testing the timer alone rules out the first state in every run (`TimerTestSuffices`), testing for either rules out both:
  then no stage goes loose and a commit takes effect only behind a stage that recorded itself (`EitherOneAtomicity`).
  The trunk command has the same guard. A second apply under an armed timer is harmless exactly when nothing had moved
  (`SecondApplyExact`); over a record without a timer it is always safe, because its script needs no backups and a commit
  asks for the recorded list (`TrunkAtomicity`, `TrunkRuns.CommitTakesEffect`).
- A commit throws its backups away before it knows that the timer stopped. If it did not, firing removes the newly added
  files that lead the script and stops at the first copy, so the committed files survive exactly when the first touched
  path had existed before (`StuckTimerSweeps`, `StuckTimerExact`). A trunk commit in that position is undone whole (`UnstoppedCommit`).
- Run state lives under `/run`. The applier's comment says a reboot clears a half-finished transaction together with its
  timer; it also clears the promise, and half-installed files stay (`RebootForgets`).
- A teardown that begins on an errored group that never got a slot is the one statement that breaks the lifecycle
  invariant (`StepKeepsExactly`); such a group could then become active without a slot (`UnallocatedTeardown`). The
  releasing code refuses a group without a VLAN beforehand, which is what the runs assume.
- The reason of a stopped teardown is recorded exactly when the row is still `deleting`; a promotion or a sweep in between
  takes the row elsewhere and the reason is lost (`StoppedKeepsAllocation`).
- Allocating an unallocated group succeeds exactly when at most 256 groups exist, allocated or not, because the
  transaction plans over all of them (`AllocateExactly`).
- When a checkpoint throws while failures are being marked, the started mutations after it are not compensated. The
  saga restores everything exactly when none of those changed anything (`ApplyProxmoxVnetActions`, `MarkingInterrupted`).
  The other way round, a compensation that restored everything is reported as failed when its closing checkpoint throws.
- Rolling back the Access include line restores `/etc/nftables.conf` exactly when it existed and ended in a newline
  (`RollbackUndoesInclude`).
- Without `allow_same_group`, a peer range that covers the Access address would open every port to Access; canonical
  peers never do (`AccessExactly`, `InfrastructureExactly`).

## Model

| member | source | states |
|---|---|---|
| GatewayPaths.BackupNameInjective | infra/gateway/apply_gateway.py:62-84 | two managed paths with the same flattened backup name are the same path |
| GatewayPaths.AllowedExactly | infra/gateway/apply_gateway.py:62-84 | the allowlist is exactly four fixed files, the two units of a VLAN interface, and the unit of its parent |
| GatewayGuest.BackupIffPresent | infra/gateway/apply_gateway.py:713-727 | after the backup step a touched path has a backup exactly when it existed, and the backup is its content |
| GatewayGuest.ScriptRestores | infra/gateway/apply_gateway.py:431-466 | from any point at which the backups and the script stand, the generated script gives back every file, and every VLAN link if links and files matched before; a second run finds the same |
| GatewayGuest.ScriptIdempotent | infra/gateway/apply_gateway.py:431-466 | running the script twice equals running it once |
| GatewayProtocol.CompleteWrites | infra/gateway/apply_gateway.py:739-755 | a stage that runs to its end leaves exactly the staged-minus-pruned files, with links and `.netdev` files coinciding |
| GatewayProtocol.EarlyStage | infra/gateway/apply_gateway.py:699-737 | dying before the timer is armed leaves files, links, timer and record as they were |
| GatewayProtocol.LateStage | infra/gateway/apply_gateway.py:730-773 | dying after the timer is armed, and not caught by it, leaves a guest its script can restore; only a full run records a transaction |
| GatewayCaught.CaughtStage | infra/gateway/apply_gateway.py:730-774 | a stage whose timer elapses among its writes ends without a timer and with backups and script in place, and records itself exactly when its last write comes behind the firing |
| GatewayCaught.CaughtExactly | infra/gateway/apply_gateway.py:730-774 | it ends with the old files and links exactly when every write behind the firing found on the old guest what it would leave |
| GatewayCaught.CaughtAtOnce | infra/gateway/apply_gateway.py:730-774 | caught right behind the arming, a full stage reaches its target, recorded and unguarded |
| GatewayHollow.Sweep | infra/gateway/apply_gateway.py:431-466 | a script whose backups were replaced or lost removes exactly the paths that had been new, up to the first copy it misses, with their links, and moves nothing else |
| GatewayHollow.SweepHarmlessExactly | infra/gateway/apply_gateway.py:431-466 | it is harmless exactly when none of those paths is there |
| GatewayRuns.StepKeeps | infra/gateway/apply_gateway.py:665-887 | every stage begun without a timer, caught or not and over a record or not, every commit, whether it stops its timer or not, every rollback and firing keeps the protocol invariant |
| GatewayRuns.TwoPhaseAtomicity | infra/gateway/apply_gateway.py:665-887 | over any stage begun without a timer, whatever is on record, and any commits, rollbacks and firings after it: unless one of the named cases applies, firing or the present guest gives back the old one; after a commit the files are what the stage left, its target if it recorded itself uncaught, less what an unstopped timer sweeps; a caught stage whose script was not run again stays as it ended; a stage that died before writing its script over a record leaves the old files, less what a run of the old script sweeps |
| GatewayRuns.ReachableAtomicity | infra/gateway/apply_gateway.py:665-887 | the same for every stage of every run from a quiet guest, with the old script known |
| GatewayRuns.EitherOneAtomicity | infra/gateway/apply_gateway.py:680-687 | if the guard asked for the timer or the record, on any guest no stage would go loose and a commit would take effect only behind a stage that recorded itself |
| GatewayRuns.CaughtLeavesExactly | infra/gateway/apply_gateway.py:665-887 | after a caught stage, without a commit, the old guest is back exactly when its script was run again or no write behind the firing mattered |
| GatewayRuns.CaughtRollsBack | infra/gateway/apply_gateway.py:855-870 | a rollback of a caught stage that recorded itself always brings the old guest back |
| GatewayRuns.CommitTakesEffect | infra/gateway/apply_gateway.py:810-840 | on any guest without a timer: behind a stage that recorded itself a commit takes effect exactly under its identifier; behind any other exactly under that of an older record, unless the stage was caught |
| GatewayRuns.UnarmedIsQuiet | infra/gateway/apply_gateway.py:680-687 | after any run without a stage that outlived its timer, a guest without an armed timer is ready for the next stage |
| GatewayHazard.GuardAsWrittenExact | infra/gateway/apply_gateway.py:683-687 | with a timer but no record, a second stage is harmless exactly when the first one had changed no file |
| GatewayHazard.HazardReached | infra/gateway/apply_gateway.py:739-774 | any stage that changes something and dies just before its record reaches the harmful state |
| GatewayHazard.StackedStages | infra/gateway/apply_gateway.py:680-687 | behind a stage that recorded itself any number of further stages, wherever they would die, moves nothing, and a firing or a rollback still gives back the guest from before it |
| GatewayHazard.StageOutlives | infra/gateway/apply_gateway.py:730-774 | on every quiet guest some accepted stage outlives its timer and ends with new content, recorded and unguarded |
| GatewayHazard.StuckTimerExact | infra/gateway/apply_gateway.py:810-840 | behind a commit that could not stop its timer, the files it kept survive the firing exactly when the first touched path had existed before |
| GatewayHazard.RebootForgets | infra/gateway/apply_gateway.py:40-50 | a reboot with an armed timer ends where firing would have exactly when no file had changed yet |
| GatewayStale.StaleGuardExact | infra/gateway/apply_gateway.py:683-687 | with a record but no timer, stages that die before writing their script are harmless to a later rollback, however they die, exactly when no file is there that it could take away |
| GatewayStale.StaleRollbackExact | infra/gateway/apply_gateway.py:699-727 | for one such stage, the files are the old ones less what the old script sweeps with the backups it finds |
| GatewayStale.StaleRollbackReached | infra/gateway/apply_gateway.py:665-887 | the run: a stage outlives its timer, the next dies at its first write, and the rollback removes a file both had asked for |
| GatewayStale.StaleCommitExact | infra/gateway/apply_gateway.py:810-840 | a stage that armed over an older record and died can be committed under the old identifier, and its files are the target exactly when every write not made would have changed none |
| GatewayStale.StaleCommitReached | infra/gateway/apply_gateway.py:810-840 | the run: a stage outlives its timer, the next dies behind its first installation, and the commit keeps one file of two |
| GatewayHost.GuestHost.OperationStage | infra/gateway/apply_gateway.py:665-788 | the in-place stage is the step of the state machine; over an armed recorded transaction it gives no answer and changes nothing; without a timer it answers exactly for a well-formed request on the allowlist that a validator passed and whose every write was made, and then, if its timer did not elapse, has installed the target under an armed timer and recorded itself |
| GatewayHost.GuestHost.OperationCommit | infra/gateway/apply_gateway.py:810-840 | takes effect exactly for the recorded identifier and a converged guest: the files stay, record and backups go, and the timer goes on exactly when it could not be stopped; otherwise nothing changes |
| GatewayHost.GuestHost.OperationRollback | infra/gateway/apply_gateway.py:855-870 | runs the armed script exactly when something is recorded and the request names it or nothing; without a record nothing changes |
| GatewayHost.GuestHost.RunRollbackScript | infra/gateway/apply_gateway.py:431-466 | the script run line by line, stopping at a failing copy |
| GatewayFiles.RenderedAllowed | backend/src/network/adapters/gateway.ts:151-160 | the applier's allowlist accepts every path of every plan the backend can build |
| GatewayFiles.RenderedAnswers | infra/gateway/apply_gateway.py:665-788 | a rendered bundle is a request the applier answers exactly when no write fails |
| GatewayFiles.RenderedLinks | backend/src/network/gateway-render.ts:90-135 | installing it leaves the `.netdev` files of exactly the plan's interfaces, whatever was there |
| GatewayCoordinator.ApplyGatewayPolicy | backend/src/network/gateway-apply.ts:211-316 | on any guest without a timer: a commit is sent exactly when the stage answered, the answer arrived and named the revision, the guest had converged with its timer armed, and the observation passed; each outcome has its exact condition and the guest it leaves: the target with the timer stopped or still armed, the guest as the stage left it, or the old one; no commit is sent behind a caught stage |
| GatewayCoordinator.Abandon | backend/src/network/gateway-apply.ts:338-350 | a rollback is reported exactly when it arrived, was answered and found its record; what is left is the old guest, or the guest as it was when nothing arrived and no timer elapsed |
| AccessInclude.RollbackUndoesInclude | infra/access/apply_access.py:310-320 | what the rollback's filter leaves of the file, and that it is the old content exactly for files ending in a newline |
| AccessInclude.RollbackWithoutInclude | infra/access/apply_access.py:393-401 | before the line was added the filter changes nothing but a missing final newline |
| AccessInclude.IncludeEnsured | infra/access/apply_access.py:310-320 | whatever the file held, it ends up reading the managed rules in, keeps what it held, and is touched exactly when the line was missing |
| TrunkText.TrunksRoundTrip | infra/access/apply_access_trunk_forced_command.py:232-264 | reading a rewritten string gives the sorted list back and keeps every other field in order |
| TrunkText.ParseExactly | infra/access/apply_access_trunk_forced_command.py:232-237 | without the field no VLANs; otherwise the value of the first such field, refused exactly when a non-empty item is not a number, and sorted |
| TrunkText.EmptyListClears | infra/access/apply_access_trunk_forced_command.py:259-264 | writing the empty list takes the field away and leaves the other fields in order |
| TrunkText.RewriteOverwrites | infra/access/apply_access_trunk_forced_command.py:259-264 | rewriting twice is rewriting once with the later list |
| AccessTrunk.ApplyReachesDesired | infra/access/apply_access_trunk_forced_command.py:449-460 | without a failure both halves equal the desired list and no other property moves |
| AccessTrunk.RollbackRestores | infra/access/apply_access_trunk_forced_command.py:371-385 | from any slice of the writes, from the start or from where the timer put everything back, the script gives back the string verbatim and the exact live set, and is idempotent there |
| AccessTrunk.TrunkHost.OperationApply | infra/access/apply_access_trunk_forced_command.py:404-491 | refused exactly for an empty or untaggable list, another string than expected, an unreadable one, an absent interface, a pending transaction or a window out of bounds, changing nothing; otherwise the undo script is written first, an armed timer ends the command, the writes are made up to any failure and with the timer elapsing among them, the record comes last and holds the wanted list and what both halves were, and the answer says whether the string had to be rewritten, names the differences in order and, while the timer is armed, both halves as wanted |
| AccessTrunk.CaughtExactly | infra/access/apply_access_trunk_forced_command.py:449-474 | an apply whose timer elapses among its writes ends with the old trunk exactly when it made no write behind the firing |
| AccessTrunk.TrunkHost.TimerElapses | infra/access/apply_access_trunk_forced_command.py:371-402 | the timer runs the undo script once; a failing rewrite of the string ends it before anything moved |
| AccessTrunk.TrunkHost.OperationCommit | infra/access/apply_access_trunk_forced_command.py:554-580 | commits exactly the recorded transaction while both halves hold its list, an absent interface counting as an empty half, and reports the timer that could not be stopped |
| AccessTrunk.UnstoppedCommit | infra/access/apply_access_trunk_forced_command.py:544-580 | a commit whose timer could not be stopped is undone when it elapses, exactly if the apply had changed anything |
| AccessTrunk.SecondApplyExact | infra/access/apply_access_trunk_forced_command.py:427-447 | a second apply under the timer of an unrecorded one makes that timer restore the half-way trunk, so the original comes back exactly when nothing had moved |
| AccessTrunk.TrunkHost.OperationRollback | infra/access/apply_access_trunk_forced_command.py:594-605 | runs the armed script, disarms and forgets, exactly for the recorded transaction, an empty name being none; a failing script line leaves everything, the timer included |
| TrunkRuns.TrunkAtomicity | infra/access/apply_access_trunk_forced_command.py:404-605 | over any apply begun without a timer, whatever is on record, and anything up to the next apply: the trunk is the one it found if its script was run to the end since and the one it left otherwise, and running the script would give back the one it found |
| TrunkRuns.CommitTakesEffect | infra/access/apply_access_trunk_forced_command.py:554-580 | a commit takes effect exactly on a trunk that holds the list on record: the apply's own, or an older one behind an apply that did not record itself |
| AccessTrunk.NoChangeExactly | backend/src/network/access-trunk.ts:114-155 | each half is reported satisfied exactly when it holds the wanted set, the live one only while it can be seen; no change is planned exactly when both are, and none is announced for an unseen live half |
| AccessTrunk.PlannerAgreesWithHost | backend/src/network/access-trunk.ts:129-155 | the planner's additions and removals are the host's, and planning after the apply asks for nothing |
| Slots.SubnetMembers | backend/src/network/config.ts:142-164 | a slot's subnet is exactly its 256 addresses |
| Slots.SlotsDisjoint | backend/src/network/config.ts:142-164 | no address belongs to two slots |
| Slots.SlotAddresses | backend/src/network/config.ts:187-217 | each slot's addresses, number by number; Gateway and Access are distinct, inside the subnet and outside the lease range |
| Slots.SlotNamesInjective | backend/src/network/config.ts:142-164 | tag, VNet name and subnet determine one another |
| Projection.GetPersistedSlot | backend/src/network/desired-state.ts:105-124 | unallocated, canonical or an error, and which of them exactly |
| Projection.LowestFreeIsLowest | backend/src/network/groups.ts:48-60 | the scan's result is free and everything below it is taken; no result means the pool is full |
| Projection.FindLowestAvailableVlan | backend/src/network/groups.ts:48-60 | the loop computes that scan |
| Projection.BuildNetworkPlan | backend/src/network/desired-state.ts:147-196 | the single-cursor loop gives what rescanning the pool for every group gives, and refuses exactly the same rows |
| ProjectionLaws.PlanIgnoresOrder | backend/src/network/desired-state.ts:152 | the order of the rows does not matter |
| ProjectionLaws.ExhaustedExactly | backend/src/network/desired-state.ts:169-185 | among valid rows the pool runs out exactly when there are more than 256 |
| ProjectionLaws.PlanSlots | backend/src/network/desired-state.ts:147-185 | every group is planned once, allocated ones on their own slot, others on free ones, all distinct |
| ProjectionLaws.AllocatorAgreesExactly | backend/src/network/groups.ts:176-187 | the allocator's pick equals a group's projection exactly for the unallocated group with the lowest id |
| ProjectionLaws.PersistingKeepsPlan | backend/src/network/groups.ts:176-212 | persisting that pick leaves the whole desired state unchanged |
| Groups.Database.AllocateNetworkGroup | backend/src/network/groups.ts:119-221 | the transaction on the tables, with its rollback, is the allocation step and its reply |
| Groups.Database.GetOrCreatePlannedGroup | backend/src/network/groups.ts:248-260 | the existing row of owner and profile, or one new planned row |
| Groups.Database.MarkNetworkGroupError | backend/src/network/groups.ts:286-306 | moves only planned, creating or errored groups without instances |
| Groups.Database.MarkNetworkGroupActive | backend/src/network/groups.ts:337-358 | promotes exactly creating and deleting groups, with the revision and without the last error, and says so |
| Groups.Database.MarkNetworkGroupDeleting | backend/src/network/groups.ts:391-410 | enters teardown exactly for groups that are not planned and have no instance, and changes their state only |
| Groups.Database.MarkNetworkGroupTeardownError | backend/src/network/groups.ts:443-454 | annotates deleting groups and changes no state |
| Groups.Database.DeleteNetworkGroupRecord | backend/src/network/groups.ts:482-493 | removes exactly deleting rows without instances, and says so |
| Groups.Database.DeleteUnusedPlannedGroup | backend/src/network/groups.ts:514-524 | removes exactly planned rows without instances |
| Groups.Database.RecoverStrandedGroups | backend/src/network/drift-reconciler.ts:258-277 | exactly the deleting groups with instances return to creating |
| GroupRuns.StepKeepsExactly | backend/src/network/groups.ts:119-524 | on a table where planned groups hold nothing, errored ones nothing or a canonical slot, all others a canonical slot, and slots and owners are pairwise distinct, every guarded statement keeps this, except exactly a teardown beginning on an errored group without a slot |
| GroupRuns.RunKeeps | backend/src/network/groups.ts:119-524 | so does every run in which teardowns begin on rows that hold a VLAN |
| GroupRuns.AllocateExactly | backend/src/network/groups.ts:119-221 | on every reachable table, errored groups without a slot included, the reply and the row it leaves, case by case: the inconsistency errors never occur, an allocated group keeps its slot, and an unallocated one is served exactly while at most 256 groups exist, under the revision of the plan with it |
| GroupHistories.SchemaImplied | backend/schema.sql:189-235 | the schema's checks and unique columns follow from the invariant |
| GroupHistories.RemovedOnlyEmpty | backend/src/network/groups.ts:482-524 | over any run, a row goes only by release from deleting or by dropping a planned group, never under an instance |
| GroupHistories.AllocationFixed | backend/src/network/groups.ts:119-221 | over any run an allocation never changes while its row lives |
| GroupHistories.ReleasedByTeardown | backend/src/network/groups.ts:482-493 | an allocated group leaves the table only at a release that saw no instance |
| GroupHistories.SlotReusedAfterRelease | backend/src/network/groups.ts:176-200 | a VLAN passes to another group only after such a release |
| GroupHistories.StepFrame | backend/src/network/groups.ts:119-524 | a statement touches one group (the sweep apart), moves its state only along the listed passages, gives it a slot only by allocation, never changes its owner, and as a failure or teardown report never reaches a group with an instance |
| GroupHistories.StepEffects | backend/src/network/groups.ts:286-524 | the converse: from a group's state and instances alone, when each statement takes effect and what the row then holds |
| GroupHistories.CreationEffects | backend/src/network/groups.ts:248-260 | a request finds the group of its owner and profile or makes a planned one that holds nothing |
| GroupHistories.UnallocatedTeardown | backend/src/network/teardown.ts:320-324 | the run, ruled out by the refusal before a release, that makes a group active without a slot |
| Views.ViewsCoincide | backend/src/network/gateway-plan.ts:133-196 | on every reachable table the infrastructure, Gateway, peering, peer and firewall selections are one set of groups with canonical slots, which leaves out errored groups that have none |
| Views.BuildInfrastructurePlan | backend/src/network/infrastructure-desired-state.ts:101-150 | refused exactly for unallocated operational rows or unplannable ones; each VNet has its group's tag and the name made of it; the Access list is the migration VLAN plus the allocated ones |
| Views.InfrastructureBuilds | backend/src/network/infrastructure-desired-state.ts:72-110 | no reachable table makes it fail |
| Views.SweepCoversEveryInstance | backend/src/network/drift-reconciler.ts:258-311 | before the sweep exactly instances of deleting groups are missed, after it none on an allocated group is |
| GatewayPlan.CanonicalDomains | backend/src/network/gateway-desired-state.ts:281-299 | one entry per name with its flag; refused exactly for invalid names or conflicting flags |
| DomainNames.NormaliseIdempotent | backend/src/network/gateway-desired-state.ts:250-275 | normalising a normalised name changes nothing |
| DomainNames.DomainNameExactly | backend/src/network/gateway-desired-state.ts:250-275 | the accepted names, label by label |
| DomainNames.NormaliseAccepts | backend/src/network/gateway-desired-state.ts:250-275 | a name is accepted however it is cased and whatever blanks stand around it |
| GatewayPlan.BuildInterface | backend/src/network/gateway-desired-state.ts:321-363 | built exactly for a canonical slot and consistent domains, and stands for that slot |
| GatewayPlan.BuildPeeringEdges | backend/src/network/gateway-desired-state.ts:384-427 | each direction of each peering once, sorted; refused exactly for unrealisable peerings |
| GatewayPlan.EdgesReversible | backend/src/network/gateway-desired-state.ts:407-420 | the edge set is closed under reversal |
| GatewayPlan.BuildGatewayPlan | backend/src/network/gateway-desired-state.ts:450-490 | succeeds exactly on consistent inputs, and the plan stands for exactly the given groups and peerings |
| Squid.RenderSquid | backend/src/network/gateway-render.ts:286-411 | the loop emits the header, one block per group, the closing deny and the splice rules in order |
| SquidMeaning.SuffixIsBelow | backend/src/network/gateway-render.ts:373-378 | the dotted-suffix match is the label-wise "below" relation |
| SquidMeaning.PlainRequests | backend/src/network/gateway-render.ts:324-395 | a plain request is served exactly on 80 and 443 and to the own group's domains |
| SquidMeaning.TlsConnections | backend/src/network/gateway-render.ts:331-410 | a TLS connection is tunnelled exactly on 443 and when its server name is the own group's |
| SquidMeaning.Strangers | backend/src/network/gateway-render.ts:397-410 | a source in no group's subnet gets nothing |
| SquidMeaning.OtherGroupsIrrelevant | backend/src/network/gateway-render.ts:352-357 | adding, changing or removing other groups never changes a group's verdicts |
| SquidRestart.NeedsSquidRestart | infra/gateway/apply_gateway.py:355-368 | the loop finds a harmful dropped line exactly when there is one |
| SquidRestart.RestartExact | infra/gateway/apply_gateway.py:328-368 | between rendered files no restart is needed exactly when the settings agree and every staying group had no allowlist or keeps it |
| SquidRestart.ReloadRevokesNothing | infra/gateway/apply_gateway.py:328-345 | after a reload a staying group can reach whatever it could before |
| Nftables.ForwardExactly | backend/src/network/gateway-render.ts:570-609 | the forward chain accepts exactly currently peered lab pairs, and replies elsewhere |
| Nftables.ForwardingIsPeering | backend/src/network/gateway-render.ts:575-591 | between two groups the decision is the peering table's, whatever connection tracking remembers |
| Nftables.OnlyOwnGateway | backend/src/network/gateway-render.ts:531-567 | a VM reaches the Gateway exactly on its own interface's services and by DHCP broadcast |
| Nftables.OutsideExactly | backend/src/network/gateway-render.ts:531-541 | from elsewhere the Gateway admits exactly DHCP replies on the uplink, and SSH and pings from the approved sources on management |
| Nftables.PrivateExactly | backend/src/network/gateway-render.ts:486-500 | the non-routable set, octet by octet |
| Nftables.ProxiedExactly | backend/src/network/gateway-render.ts:511-528 | exactly web traffic to public addresses is redirected, each port to its proxy port, and the input chain then admits it |
| VmFirewall.SourceExactly | backend/src/network/vm-firewall.ts:253-257 | a VM may claim its group's addresses except the Gateway's and Access's |
| VmFirewall.BuiltExactly | backend/src/network/vm-firewall.ts:207-223 | a policy is refused exactly over a malformed prefix, one address for both appliances, unusable ports, or a peer that is malformed or the own subnet; the same-group flag has no part in it |
| VmFirewall.EgressExactly | backend/src/network/vm-firewall.ts:338-368 | what leaves: client DHCP, and whatever neither serves DHCP nor opens towards Access |
| VmFirewall.IngressExactly | backend/src/network/vm-firewall.ts:259-337 | what enters, source by source, under first match |
| VmFirewall.PolicyCanonical | backend/src/network/vm-firewall.ts:217-223 | the policy depends on the sets of ports and peers only |
| VmIsolation.VmToVm | backend/src/network/vm-firewall.ts:207-384 | every group with a slot has a policy; with it a VM may claim exactly its group's addresses, and reaches another exactly when it does not pose as a DHCP server and both share an allowing group or the receiver lists the sender's subnet |
| VmIsolation.InfrastructureExactly | backend/src/network/vm-firewall.ts:259-330 | for every group with a slot: Access opens only session ports and ICMP, the Gateway only ICMP, whatever the flag; both may answer a DHCP client |
| VmIsolation.AccessExactly | backend/src/network/vm-firewall.ts:284-337 | the same for arbitrary peer ranges, with the one exception spelled out |
| VmFirewallApply.SortedPositions | backend/src/network/vm-firewall-apply.ts:138-143 | however positions are listed, the sorted order counts down to zero |
| VmFirewallApply.GuestFirewall.WriteIpSet | backend/src/network/vm-firewall-apply.ts:104-136 | the stored entries become exactly the policy's, each with its own flag, in one write per entry found and one per entry wanted |
| VmFirewallApply.GuestFirewall.DeleteRules | backend/src/network/vm-firewall-apply.ts:138-143 | deleting from the highest position empties any list in as many calls as it has rules |
| VmFirewallApply.GuestFirewall.CreateRules | backend/src/network/vm-firewall-apply.ts:144-149 | inserting backwards at the top leaves the wanted order |
| VmFirewallApply.GuestFirewall.ApplyVmFirewall | backend/src/network/vm-firewall-apply.ts:94-177 | a written guest has exactly the policy, whether or not the observation at the end agrees; a failing write never touches the options, nor a rule before the source filter is right; it fails exactly when fewer writes get through than entries and rules found and wanted, the options, and a missing set take |
| AcrossLayers.GatewayBuildsExactly | backend/src/network/gateway-plan.ts:133-172 | on a reachable table the Gateway plan can fail only over an allowlist or a self-peering |
| AcrossLayers.PeerListIsPeering | backend/src/network/gateway-plan.ts:184-196 | a subnet is in a group's peer list exactly when its holder is peered with the group |
| AcrossLayers.ForwardingMatchesPeerList | backend/src/network/gateway-plan.ts:162-196 | the Gateway forwards from one group to another exactly when the second one's VMs list the first one's subnet |
| AcrossLayers.EndToEnd | backend/src/network/gateway-render.ts:570-609 | for any two groups with interfaces, given their peers' subnets and any ports: both have policies, and through both firewalls, the source filter, the proxy's redirection and the forward chain a new connection arrives exactly when it comes from an address of the sender's group, the groups are peered and it does not serve DHCP, web ports included |
| AcrossLayers.WebAccessOfProfile | backend/src/network/gateway-plan.ts:133-151 | from an address of a group's subnet the web is reachable exactly on 80 and 443 for the domains its profile lists, and TLS exactly on 443 for server names among them |
| AcrossLayers.TrunkNeverRefused | backend/src/network/access-trunk.ts:114-123 | the planner never refuses the infrastructure plan's Access list |
| Saga.SnapshotVnets | backend/src/network/infrastructure-apply.ts:134-157 | refuses exactly when a create names a VNet that is there or an update one that is not, and records what was there |
| Saga.Cluster.CompensateVnets | backend/src/network/infrastructure-apply.ts:203-252 | in reverse, over any observed cluster: restores what it recognises as its own and stops at anything else |
| Saga.WritesOnlyOwn | backend/src/network/infrastructure-apply.ts:203-236 | a VNet is written only if it was observed in this apply's own desired form |
| Saga.UndoneIsBefore | backend/src/network/infrastructure-apply.ts:211-236 | whatever subset of mutations took effect, undoing one gives back the snapshotted VNet or its absence |
| Saga.RestoredExactly | backend/src/network/infrastructure-apply.ts:203-252 | the cluster is as before exactly when no uncompensated mutation changed anything |
| SagaDriver.Attempt.RunMutations | backend/src/network/adapters/proxmox-vnet.ts:85-119 | an empty list is done at once; otherwise the started mutations, in order, up to the failing step, and whether the run completes; a VNet is changed exactly when the run got past its checkpoint and the call arrived |
| SagaDriver.Attempt.MarkFailed | backend/src/network/adapters/proxmox-vnet.ts:113-118 | which started mutations end up marked when a checkpoint throws |
| SagaDriver.Attempt.ApplyProxmoxVnetActions | backend/src/network/infrastructure-apply.ts:309-453 | which outcome arises when, with the cluster it leaves: an undisturbed attempt that still fits is applied, an applied one leaves created VNets as wanted, updated ones with the wanted zone and tag and the rest as it was, and no other moved; a compensation that ran to its end restores the cluster exactly when the unmarked mutations changed nothing, and reports so exactly when its closing checkpoint succeeds |
| SagaDriver.MarkingInterrupted | backend/src/network/adapters/proxmox-vnet.ts:113-118 | an attempt, run from an empty cluster, that reports a compensation while a created VNet stays |
| Teardown.Reconcile | backend/src/network/teardown.ts:204-245 | succeeds exactly when, within the attempts, contention is followed by a success |
| Teardown.Releaser.Dismantle | backend/src/network/teardown.ts:360-415 | VNet first, then Gateway, Access policy and trunk; wherever it stops, what was done is a prefix of that order and the group is gone from exactly what was done |
| Teardown.Releaser.ReleaseNetworkGroup | backend/src/network/teardown.ts:311-438 | with other requests' statements in between: refused, changing nothing, exactly when executors are off, the row held no slot when read, or the group is gone, planned or in use; release exactly when every dependency cooperates and the row is then deleting and empty; any other end leaves the tables as the others left them, with the reason where the row is still deleting |
| Teardown.ReleaseAllocated | backend/src/network/teardown.ts:311-438 | on every reachable table a group with a slot and without instances is released by a cooperating teardown nobody comes in between, and nothing else moves |
| Teardown.ReleaseAfterFailure | backend/src/network/teardown.ts:311-438 | after a stop anywhere, a rerun with cooperating dependencies completes exactly when the row may still be torn down, which it may when nobody else came in between |
| Teardown.StoppedKeepsAllocation | backend/src/network/teardown.ts:431-437 | under any legal interleaving a stopped teardown's row keeps its slot while it lives; the reason is recorded exactly when it is still deleting; with an instance it cannot be released and the sweep brings it back |
| Quota.EffectiveLimit | backend/src/controllers/instances.controller.ts:339-349 | an unusable setting means one, never no limit |
| Quota.InstanceTable.ReserveInstance | backend/src/controllers/instances.controller.ts:322-373 | refuses exactly at the limit, otherwise adds one row |
| Quota.QuotaHolds | backend/src/controllers/instances.controller.ts:322-381 | over all interleavings committed rows of a limited owner never exceed the limit |
| Quota.StaleCountsExceed | backend/src/controllers/instances.controller.ts:326-337 | over runs from the empty table, a limit can be exceeded exactly when counting does not wait for the lock and the limit is above zero |
| Retry.RunStep | backend/src/network/provisioning-network.ts:126-169 | at most attempts plus waits-per-budget apply calls; held locks never use up an attempt and are waited out exactly while the budget lasts; which reply gives which outcome, and how long it took |
| Words.TopBits | backend/src/network/address-selection.ts:44-46 | the first p bits of a word are the number divided by the block size |
| AddressSelection.QuadNumber | backend/src/network/address-selection.ts:36-41 | shifting and or-ing octets reads the dotted quad in base 256 |
| AddressSelection.InsideIsMembership | backend/src/network/address-selection.ts:51-73 | the signed mask comparison is equality of the top prefix bits |
| AddressSelection.LeastMember | backend/src/network/address-selection.ts:115-149 | the least usable member of the subnet, and the prefix fallback only when there is none |
| AddressSelection.SelectionExactly | backend/src/network/address-selection.ts:115-149 | refused exactly over a malformed subnet, or an empty prefix where the subnet settles nothing; otherwise, without a member, the first usable address with the prefix, or none |
| AddressSelection.UsableExactly | backend/src/network/address-selection.ts:78-88 | which reported addresses are candidates at all, octet by octet |
| AddressSelection.FallbackIsEarliest | backend/src/network/address-selection.ts:145-148 | the prefix fallback takes the earliest reported candidate |
| AddressSelection.OrderIrrelevant | backend/src/network/address-selection.ts:124-131 | with a member present the listing order does not matter |

## Left out

- infra/access/apply_access.py beyond its include line, and the Access, trunk and Gateway runners: the same protocol again. The Access interface does not come and go during a run of trunk applies.
- A timer that fires while a commit, a rollback or another firing runs, and VNet races between a teardown and another runner: the code takes no lock there. Commit, rollback and a firing are atomic steps; a firing inside a stage or an apply is not left out.
- Which services a stage reloads or restarts (`changed_paths`), the validators and the verification: an arbitrary verdict. The links considered are VLAN links; the check that a pruned name is not a physical interface is not modelled.
- The text of networkd, sysctl, dnsmasq and nftables files, Squid's comments and its directives that are the same in every file; rule lists and lines stand for text. Python's `\d` also matches non-ASCII digits.
- Trimming and lower-casing beyond ASCII, and locale-dependent sorting: names sort by code point. Peer subnets sort by number instead of by text.
- Management source networks and upstream resolvers are taken as given lists; their validation is not modelled.
- SHA-256 revisions: an arbitrary function of the plan, compared for equality only.
- Groups.Database.AllocateNetworkGroup: does not model a unique-constraint conflict with a writer outside the advisory lock; each statement is atomic, and the foreign key that would null an instance's group is not relied on.
- Views.BuildInfrastructurePlan: requires distinct row ids, as the primary key gives.
- Retry.RunStep: the VNet step's own copy of the loop, with its extra ownership check, is not repeated.
- SagaDriver.Attempt.ApplyProxmoxVnetActions: polling for convergence is one look at the cluster, because nobody else writes during the attempt; writes by others are covered by `Saga.Cluster.CompensateVnets` alone.
- AddressSelection.LeastMember: addresses arrive as dotted quads or as something else; text parsing is not modelled.
- VmFirewall.IngressExactly: speaks of packets that open a connection; replies pass by connection tracking before the rules.
- Session ports derived from a template, readiness and observation grading, instance cloning, Guacamole, SAML, the web application and all HTTP clients.
