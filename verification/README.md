# The CUBRID operator, modelled and proved in Dafny

The CUBRID operator runs CUBRID databases on Kubernetes. Most of it is calls to the API server;
this project models the parts that carry algorithms and protocols of their own, with the cluster
as an abstract store, and proves what they promise over every input, every run and every order
of events.

| module | what it models |
|---|---|
| `BackupRetention`, `BackupPass`, `BackupRuns` | the deletion pass of `backupdb.sh`, and runs of the script with failures |
| `NodePorts`, `ServiceManager`, `NodePortRuns` | the NodePort allocator, the reconcile of the NodePort CMS services, and runs of both |
| `ReplicaSync` | the two-way replica synchronisation between a StatefulSet and its CubridDB |
| `StatusUpdates` | concurrent `updateStatus` calls on one BackupDB |
| `BackupSchedule`, `Cron` | the schedule index against the cron scheduler, and the two validators of a schedule |
| `OperatorConf`, `ConfPatterns`, `HaManager`, `LogArchives`, `HaConfiguration`, `CommonConfig`, `HaGroup`, `PodNames` | the HA configuration of a group: script edits and their patterns, compatible edits in any order, the one looser pattern, the commands of a pod in map order and their effect, the shared values, pod names |
| `IngressServices` | the ingress CMS services and their clean-up by name |
| `Admission`, `AdmissionRules`, `MasterReferences` | defaulting and validation of a CubridDB, admitted histories of one object and of a namespace |
| `ReplicaLinks` | the colon-separated list of replica names |
| `HaStatus` | the node list, the current master and the stored HA status |
| `Text`, `Wrappers` | split, join, decimal numbers, optional values |

Code that changes state is a class or a method with the loops of the original, proved against a
function of its inputs or of the old state; the theorems are about those functions and about runs
of them. `dafny verify dfyconfig.toml` checks everything.

## Where the code falls short of what it promises

For each of these there is an exact condition under which the code is right, and an input, or a whole
family of inputs, for which it is not.

- Retention is unsafe after a failed backup, or a failed copy of `_bkvinf`: a date directory without the file
  is left behind, and when it is the oldest one inside the period the pass forgets what increments need and
  deletes it (`FailedRunBreaksChain`). `RetainedIsRecoverable` is the exact condition on the disk, `EveryRunKeepsChains` the
  theorem over runs that meet it, and `CleanRunsAreSafe` says that runs without failures do.
- NodePorts are not always unique: the allocator excludes a service by name alone, so the databases
  `a-b` in namespace `c` and `a` in namespace `b-c` get the same port (`NameClashBreaksDistinct`), and a service without
  ports at a CMS name gets the requested port unchecked (`PortlessServiceBreaksDistinct`). `DistinctAfterOne` is the exact
  condition on the store, and `DashFreeRunsKeepDistinct` gives whole runs that avoid both.
- The reconcile checks the first port only; `PassInRange` is the condition for the rest, and for a first pass
  `FirstPassInRange`, which `ValidateNodePortRange` would check if it were called.
- In a namespace with a dash the ingress clean-up misreads every service name and deletes the
  services that the same reconcile has just created (`DecodeEncode`, `LiveServiceIsSpared`).
- The pattern of `set_log_max_archives` also hits longer keys (`LongerKeyIsOverwritten`; exactly when:
  `OtherKeysAreSpared`), misses an active line with a blank before its `=` (exactly when: `ArchivesTakesEffect`), and makes
  the result depend on map order when the file names the key only in the value of another edited key
  (`MaskedIsOrderDependent`; exactly when: `ConfigurationIsOrderIndependent`).
- An edit of the CR undone between the reconcile that adopts it and the next is lost, and so is
  every scaling of the StatefulSet there (`SecondCREditIsAdopted`, `ScaleAfterCREditIsLost`).
- The webhook admits schedules that the controller then refuses: `JointLanguage` is the exact joint
  language, `RangeScheduleIsRefused` a family outside it, `0 2 * * 1-5` a member.
- A creation accepts any HA type, and an enabled object with an unknown one can never be updated again
  (`UnknownTypeIsFrozen`, `UnknownTypeIsAdmitted`).
- Two replicas can name the same master: a creation is compared with the other objects, an update is not
  (`StealingBreaksDistinct`, `StealingIsAdmitted`).
- A master whose state is not spelled in lower case is listed as a master and never chosen
  (`MasterIsFirst`, `ChoiceIsFirstMaster`).
- Defaulting is not idempotent: a second application can turn an empty HA type into master-slave
  (`DefaultingIsIdempotent`, `SecondDefaultChangesType`).
- The two pod-name parsers differ on names such as `ha-ms` (`ParsersAgree`, `ParsersDisagree`).
- Nodes that share a short name make the HA node list depend on map order, unless their states are
  equal or both of unknown role (`ListIsDetermined`).
- A group whose StatefulSets cannot be fetched is configured with the bare `cubrid@` and no sync mode
  (`ListNamesHost`).

## Model

| member | source | states |
|---|---|---|
| BackupRetention.NeedsIsVisible | config/scripts/backupdb.sh:469-473 | restoring a backup needs an earlier one exactly when every backup in between has a strictly higher level than the earlier one |
| BackupRetention.NeedsIsLaminar | config/scripts/backupdb.sh:403-404 | why one needed date is enough: what a backup needs from before some date is also needed by the backup of that date, if it lies in between |
| BackupRetention.BkvInfIsChain | config/scripts/backupdb.sh:261-262 | the copied `_bkvinf` of a backup lists exactly the backups that its recovery needs |
| BackupRetention.NeededDateIsPredecessor | config/scripts/backupdb.sh:454-458 | the `sort -r`, `head -2`, `tail -1` pipeline reads the date of the nearest earlier backup of a strictly lower level, or the own date when there is none |
| BackupPass.ShortcutChangesNothing | config/scripts/backupdb.sh:423-517 | `ALL_DELETE_YN` only saves time: whatever the files contain, the pass leaves the same dates with and without it |
| BackupPass.PassIsRetained | config/scripts/backupdb.sh:404-518 | for every history, every set of date directories on disk, every set of missing files and every deletion date, the one-pass loop leaves exactly the dates inside the period and what the oldest directory inside it spares, or the newest one when none is inside: its recovery chain as far as files lead, and everything older than the first missing file on it |
| BackupRetention.RetainedIsRecoverable | config/scripts/backupdb.sh:404-518 | on a recoverable disk retention is safe if and only if the oldest directory inside the period holds a file or the oldest backup inside it is an increment of nothing |
| BackupRetention.RetainedIsLeast | config/scripts/backupdb.sh:449-517 | retention is exact: when no file is missing on the chain, any recoverable set that keeps the directories inside the period and the newest one contains all that stays |
| BackupRetention.GapKeepsOlder | config/scripts/backupdb.sh:503-508 | a missing file on the chain outside the period keeps every older directory |
| BackupRuns.AfterIsSound | config/scripts/backupdb.sh:609-620 | one run, with any level, period, deletion date and outcome, leaves every backup on disk recoverable if and only if its deletion is safe, and always leaves today's directory |
| BackupRuns.EveryRunKeepsChains | config/scripts/backupdb.sh:609-620 | over any sequence of runs, failed ones included, in which every deletion is safe, each backup on disk keeps its whole recovery chain on disk |
| BackupRuns.CleanRunsAreSafe | config/scripts/backupdb.sh:609-620 | over any sequence of runs without a failure every deletion is safe |
| BackupRuns.FailedRunBreaksChain | config/scripts/backupdb.sh:453-458 | a backup, a failed run, and an increment whose deletion date falls between the two: what the increment needs is deleted |
| BackupRuns.NewestFirst | config/scripts/backupdb.sh:408-410 | the listing has every date directory once, newest first |
| BackupRuns.BackupDirectory.MakeDirectory | config/scripts/backupdb.sh:163-167 | today's date directory is there, without a file, whether or not there was one |
| BackupRuns.BackupDirectory.BackupDatabase | config/scripts/backupdb.sh:248-269 | a successful backup enters the history and puts the recovery chain into `_bkvinf` and its copy; a failed copy leaves the file out; a failed backup changes nothing and ends the run |
| BackupRuns.BackupDirectory.TakeBackup | config/scripts/backupdb.sh:609-612 | both together refine the abstract backup of a run, on every disk |
| BackupRuns.BackupDirectory.DeleteUnneeded | config/scripts/backupdb.sh:415-518 | the loop leaves exactly the directories of the specified pass, with their files untouched |
| BackupRuns.BackupDirectory.DeleteOldBackup | config/scripts/backupdb.sh:393-519 | the directories left are the retained ones with their files untouched, for every disk and every deletion date |
| BackupRuns.BackupDirectory.Start | config/scripts/backupdb.sh:609-620 | the command refines one abstract run on every disk, with no deletion after a failed backup or without a period |
| NodePorts.IsPortInUse | pkg/resources/service.go:178-198 | true exactly when some service with another name holds the port |
| NodePorts.UsedPorts | pkg/resources/service.go:222-234 | exactly the non-zero ports held by services with another name |
| NodePorts.LeastFreeIsLeast | pkg/resources/service.go:236-255 | the search gives the smallest unused port from the requested one up, and fails exactly when every port up to 32767 is taken |
| NodePorts.FindNextIsFirst | pkg/resources/service.go:204-256 | the answer is the first port from the start up to 32767 that no differently named service holds; there is none exactly for a start outside 30000-32767 or when all are held |
| NodePorts.FindNextAvailablePort | pkg/resources/service.go:204-256 | refuses a start outside 30000-32767, else returns the least free port |
| ServiceManager.AllocatedIsLeastFree | pkg/manager/service_manager.go:299-313 | a new service gets the least port not held elsewhere, and is refused exactly when the requested port and all above it in the range are held |
| ServiceManager.Manager.ReconcileNodePortService | pkg/manager/service_manager.go:286-374 | the new store, the error and the number of writes for a missing, matching or differing service |
| ServiceManager.Manager.ReconcileNodePortCMSServices | pkg/manager/service_manager.go:397-471 | the loop over the replicas refines the recursive pass: pods that do not exist take no port, an error ends it |
| ServiceManager.DistinctAfterOne | pkg/manager/service_manager.go:299-371 | reconciling one service keeps the NodePorts distinct if and only if: it exists with ports; or it exists without and the requested port is not held elsewhere; or it is new and the first port from the requested one up that no differently named service holds is not held by a namesake in another namespace |
| ServiceManager.OneKeepsDistinct | pkg/manager/service_manager.go:299-371 | with no service of the same name elsewhere, and a port on the service that may already be there, that is always so |
| ServiceManager.PassKeepsDistinct | pkg/manager/service_manager.go:397-471 | a whole pass keeps the NodePorts pairwise distinct when that holds for the keys of the replicas it still has to visit, whatever other services there are, and adds only keys of those replicas |
| ServiceManager.NameClashBreaksDistinct | pkg/resources/service.go:186-189 | a concrete run in which exclusion by name alone gives two services one port |
| ServiceManager.NamesakesClash | pkg/resources/service.go:186-189 | any two databases in different namespaces whose services share a name are given the same port when they come to an empty store |
| ServiceManager.PortlessServiceBreaksDistinct | pkg/manager/service_manager.go:329-337 | an existing service without ports is given a port that another service holds |
| NodePortRuns.CreatedPortsAreInRange | pkg/manager/service_manager.go:404-468 | every service that a pass creates has one port in 30000-32767 when the last port that can be requested is there |
| NodePortRuns.FirstPassInRange | pkg/resources/service.go:122-132 | a first pass, on any store without services of the database and without a port held from the start up, stays in range if and only if the start plus the number of existing pods - 1 does |
| NodePortRuns.FirstPassNumbers | pkg/manager/service_manager.go:397-471 | such a pass gives the services of the existing pods consecutive ports from the start |
| NodePortRuns.PassInRange | pkg/manager/service_manager.go:397-471 | any pass, whatever services the database already has and with no port held beyond the range, creates only services in range if and only if it runs out of ports or every existing pod without a service asks for a port in range |
| NodePortRuns.PassKeepsPorts | pkg/manager/service_manager.go:329-337 | an existing service with ports keeps its NodePort through a pass of any database |
| NodePortRuns.EnoughPortsForOne | pkg/manager/service_manager.go:299-313 | a service is refused only when every port from the requested one up is held, and takes at most one more port |
| NodePortRuns.PassHasCapacity | pkg/manager/service_manager.go:397-471 | a pass over r replicas cannot run out of ports when the distinct ports held from the start up, plus 2(r-1), do not exceed 32767 - start |
| NodePortRuns.PassSettles | pkg/manager/service_manager.go:408-468 | after a successful pass every existing pod below the replica count has, under the name database-namespace-cms-index, a NodePort service with the one port `cms` on the CMS port, the selector of the pod and the labels of the database |
| NodePortRuns.SettledPassWritesNothing | pkg/manager/service_manager.go:339-371 | a pass over settled services succeeds without a create or an update, whatever ports it asks for |
| NodePortRuns.ReconcileIsIdempotent | pkg/manager/service_manager.go:397-471 | after a successful pass every existing pod has its service, and a second pass writes nothing |
| NodePortRuns.NothingToWrite | pkg/manager/service_manager.go:339-371 | a pass succeeds without a write if and only if every existing pod has its service already, the CMS port of the database included |
| NodePortRuns.PassTouchesOwn | pkg/manager/service_manager.go:408-468 | a pass changes no service but those of its own existing pods |
| NodePortRuns.PassKeepsOwners | pkg/manager/service_manager.go:361-364 | an existing service keeps its owner, a new one is owned by its pod |
| NodePortRuns.StartPortIsChecked | pkg/manager/service_manager.go:397-406 | the start port is that of the database, or 31000, and outside 30000-32767 the pass does nothing |
| NodePortRuns.EventKeepsDistinct | pkg/manager/service_manager.go:397-471 | any pass, single turn, pod arrival or removal, unrelated service without ports or on unused ones, or deletion keeps NodePorts distinct when the keys of a reconcile are safe |
| NodePortRuns.RunsKeepDistinct | pkg/manager/service_manager.go:397-471 | over every interleaving of such events the NodePorts stay pairwise distinct |
| NodePortRuns.RunsKeepPorts | pkg/manager/service_manager.go:329-337 | over every interleaving, whatever the names, a service keeps its NodePort until it is deleted |
| NodePortRuns.CmsServiceNamesDiffer | pkg/config/settings.go:88 | in dash-free namespaces a CMS service name determines database, namespace and index |
| NodePortRuns.DashFreeRunsKeepDistinct | pkg/manager/service_manager.go:397-471 | uniqueness over every run from conditions on the databases and the added services alone: dash-free namespaces, and no foreign service under a CMS name of such a namespace in a wrong place or without a port |
| StatusUpdates.CountCompleted | internal/controller/backupdb_controller.go:594-598 | the loop counts the entries with status `Completed` |
| StatusUpdates.WithEntry | internal/controller/backupdb_controller.go:577-601 | one attempt stores the pod's entry, keeps the other entries and the names, and writes the number of Completed entries over the number of names |
| StatusUpdates.StepIsFaithful | internal/controller/backupdb_controller.go:568-615 | each read, version-checked write, conflict, abort or foreign edit keeps the stored map equal to what the successful calls wrote |
| StatusUpdates.RunsAreFaithful | internal/controller/backupdb_controller.go:568-615 | the same over any interleaving of any number of calls |
| StatusUpdates.NoLostUpdates | internal/controller/backupdb_controller.go:262-270 | from any object, each pod's stored entry is that of its last successful call, and after the first write `OverallStatus` splits at its slash into the decimal number of Completed entries and that of the names in the version that the last write read |
| StatusUpdates.OverallIsReadable | internal/controller/backupdb_controller.go:601 | the text determines both numbers |
| StatusUpdates.OverallIsFraction | internal/controller/backupdb_controller.go:601 | the text is the completed count, a slash and the total, both in decimal |
| StatusUpdates.NamesStay | internal/controller/backupdb_controller.go:577-604 | no call of `updateStatus` changes the names of the object |
| StatusUpdates.RunsAreBounded | internal/controller/backupdb_controller.go:563-568 | no call makes more than five attempts, and one that made five has ended |
| StatusUpdates.FreshAttemptSucceeds | internal/controller/backupdb_controller.go:569-614 | an attempt that reads the latest version and is not overtaken ends the call with its entry stored |
| StatusUpdates.AttemptOutcome | internal/controller/backupdb_controller.go:603-614 | an attempt as written in the code is one of the interleavings: stored when nothing intervened, else a counted conflict |
| StatusUpdates.FailureOutcome | internal/controller/backupdb_controller.go:569-613 | an attempt whose read or update fails otherwise is one of the interleavings, ends the call and writes nothing |
| StatusUpdates.Controller.Try | internal/controller/backupdb_controller.go:569-614 | one round of the loop, with any other calls between its read and its update, stays inside the protocol and stores its entry, counts a conflict, or ends the call at any other API error |
| StatusUpdates.Controller.UpdateStatus | internal/controller/backupdb_controller.go:562-621 | the call ends with its entry stored and the overall status counting all entries and names, or fails after five conflicts, or fails at the first other API error, and in no other way |
| ReplicaSync.StatefulSetManager.SyncReplicas | pkg/manager/statefulset_manager.go:229-299 | the new StatefulSet, CR and annotation for every state and every point at which the writes stop |
| ReplicaSync.SyncKeepsTarget | pkg/manager/statefulset_manager.go:246-298 | in HA mode a reconcile, complete or cut short, does not change the count that the state is bound for; a complete one makes the two counts equal |
| ReplicaSync.StabilisesAfterCrashes | pkg/manager/statefulset_manager.go:234-298 | from any annotation and after any crashes, two complete reconciles make all three equal to one of the two original counts, and to which one |
| ReplicaSync.UnreadableMeansCR | pkg/manager/statefulset_manager.go:237-245 | without a readable annotation, that is, an optional sign and the decimal digits of an int32, the count of the CR wins in HA mode: one reconcile brings the StatefulSet to it and the next one settles |
| ReplicaSync.RememberedDecides | pkg/manager/statefulset_manager.go:237-262 | with a readable one the count of the StatefulSet wins if and only if the annotation is the count of the CR |
| ReplicaSync.AnnotationIsRemembered | pkg/manager/statefulset_manager.go:289-297 | a complete reconcile writes the count that the StatefulSet had before it, in readable form |
| ReplicaSync.MissingCountIsOne | api/v1/cubriddb_types.go:249-262 | a CR count that is missing or not positive is read as 1 |
| ReplicaSync.EditsGoToTheRightSide | pkg/manager/statefulset_manager.go:246-287 | from a settled state a valid edit of one side is adopted by the other within one reconcile and settled within two |
| ReplicaSync.CREditIsAdopted | pkg/manager/statefulset_manager.go:246-287 | in HA mode, from equal counts and any annotation, one reconcile after an edit of the CR makes the counts equal, and to the edit if and only if the remembered count is not the edited one |
| ReplicaSync.StsEditIsAdopted | pkg/manager/statefulset_manager.go:246-270 | the same for an edit of the StatefulSet, adopted if and only if the remembered count is the one of the CR |
| ReplicaSync.SingleModeAdoptsOnlyOne | pkg/manager/statefulset_manager.go:302-316 | in single mode a difference is resolved if and only if the side taken to have moved is at 1; any other change is refused at every reconcile, with nothing written |
| ReplicaSync.SecondCREditIsAdopted | pkg/manager/statefulset_manager.go:289-297 | after the reconcile that adopts a CR edit, a second CR edit before the next one is adopted if and only if it does not undo the first; an undone edit stays |
| ReplicaSync.ScaleAfterCREditIsLost | pkg/manager/statefulset_manager.go:289-297 | a StatefulSet scaled between those two reconciles is always scaled back |
| ReplicaSync.NoGapAfterStsEdit | pkg/manager/statefulset_manager.go:248-262 | after the reconcile that adopts a StatefulSet edit every later edit of either side is adopted |
| ReplicaSync.CRWritesAreValid | pkg/manager/statefulset_manager.go:302-316 | over every run of edits, crashes and reconciles the CR is only ever given exactly 1 in single mode and at least 1 in HA mode |
| BackupSchedule.BackupDBReconciler.UpdateBackupSchedule | internal/controller/backupdb_controller.go:400-444 | the new index and scheduler entries for a refused, unchanged, changed or failing schedule; agreement is kept; a refused or unchanged one changes nothing; it succeeds if and only if the expression is valid and is unchanged or taken by the scheduler |
| BackupSchedule.BackupDBReconciler.RemoveBackupSchedule | internal/controller/backupdb_controller.go:189-201 | after a deletion neither the index nor the scheduler knows the BackupDB, and agreement is kept |
| BackupSchedule.StepAgrees | internal/controller/backupdb_controller.go:400-444 | every step keeps live entries and index in bijection with equal expressions |
| BackupSchedule.ScheduleAgreesOverRuns | internal/controller/backupdb_controller.go:167-201 | over every run the bijection holds and what fires for a BackupDB is exactly its last accepted schedule, so at most one, and none after a deletion |
| Cron.ExpressionIsRegex | internal/controller/backupdb_controller.go:76 | splitting at spaces decides the regular expression |
| Cron.TokenFieldIsStandard | api/v1/backupdb_webhook.go:215-282 | on the controller's tokens the webhook accepts exactly `*`, numbers in range and steps in range |
| Cron.WebhookLanguage | api/v1/backupdb_webhook.go:215-337 | a field is admitted if and only if it is a star, a star with a step in 1 to the maximum, a range of two numbers in order, a list of stars and numbers, or one number, all in the ranges of minutes, hours, days, months and weekdays |
| Cron.WebhookSchedules | api/v1/backupdb_webhook.go:188-213 | words with single spaces between them are admitted if and only if they are five such fields |
| Cron.SpaceSeparates | api/v1/backupdb_webhook.go:188-195 | the webhook takes any white space between fields, and at the ends, as one gap |
| Cron.JointLanguage | api/v1/backupdb_webhook.go:188-337 | both validators accept a schedule if and only if it is five standard fields joined by single spaces |
| Cron.DenotesTimes | api/v1/backupdb_webhook.go:284-337 | each standard field denotes a non-empty set of times inside its range |
| Cron.RangeIsAdmittedButRefused | api/v1/backupdb_webhook.go:237-252 | every range inside the limits is accepted as a field by the webhook and by the controller as none |
| Cron.RangeScheduleIsRefused | api/v1/backupdb_webhook.go:188-213 | every schedule with a range in one field and standard fields otherwise is admitted and then refused by the controller |
| Cron.WeekdaysAreRefused | internal/controller/backupdb_controller.go:410-412 | `0 2 * * 1-5` is such a schedule |
| Cron.LargeNumberIsNotAdmitted | internal/controller/backupdb_controller.go:446-448 | every number above the limit passes the controller and fails the webhook |
| OperatorConf.ConfFile.GrepFile | config/scripts/operator_conf.sh:32 | true exactly when some line matches the pattern of the edit |
| OperatorConf.ConfFile.SedFile | config/scripts/operator_conf.sh:33 | rewrites every line by the substitution of the edit, in place and in order |
| OperatorConf.ConfFile.Run | config/scripts/operator_conf.sh:30-149 | one edit of the script: substitute when a line matches, else append |
| ConfPatterns.MentionIsPattern | config/scripts/operator_conf.sh:32-146 | a line mentions a key if and only if it matches `^[#[:space:]]*key[[:space:]]*=`, with the text behind it as the rest |
| ConfPatterns.UsableIsPattern | config/scripts/operator_conf.sh:79-112 | a value is usable if and only if it starts, after blanks, with a digit, or for the database list with a letter or underscore |
| ConfPatterns.HeaderIsPattern | config/scripts/operator_conf.sh:70-71 | a line is a header if and only if it matches the `[common]` pattern, commented out or not |
| ConfPatterns.ArchivesIsPattern | config/scripts/operator_conf.sh:44-45 | what the looser pattern finds, what it rewrites, and into what |
| OperatorConf.SedSettles | config/scripts/operator_conf.sh:71-112 | a substituted line is still the edit's own line, still matches, and is a fixed point |
| OperatorConf.OneKeyPerLine | config/scripts/operator_conf.sh:32-145 | a line matches the pattern of at most one key |
| OperatorConf.ApplySettles | config/scripts/operator_conf.sh:30-149 | after an edit its pattern is present and its substitution has nothing left to do |
| OperatorConf.ApplyOnOwned | config/scripts/operator_conf.sh:30-149 | an edit acts on its own lines as if the others were not there |
| OperatorConf.ApplyOffOthers | config/scripts/operator_conf.sh:30-149 | an edit leaves the lines of every other edit as they are |
| OperatorConf.AllOnOwned | config/scripts/operator_conf.sh:30-149 | in any sequence of edits, in any order and with repetitions, each edit has acted exactly once on its own lines |
| OperatorConf.SecondRunChangesNothing | config/scripts/operator_conf.sh:30-149 | repeating settled edits in any order leaves the file unchanged |
| HaManager.CompatibleIsSeparate | pkg/manager/ha_manager.go:342-439 | edits of distinct keys stay out of each other's lines on every file in which no line has two owners |
| HaManager.CubridEditSetIsCompatible | pkg/manager/ha_manager.go:410-439 | the commands of a pod edit distinct keys of `cubrid.conf` |
| HaManager.HaEditSetIsCompatible | pkg/manager/ha_manager.go:342-375 | the commands of a group edit distinct keys of `cubrid_ha.conf` |
| HaManager.EditsAgreeOnValues | config/scripts/operator_conf.sh:30-149 | compatible edits on a file in which no line has two owners give every key, managed or not, the same values in any two orders |
| HaManager.PlacesAgree | config/scripts/operator_conf.sh:30-149 | and they leave the same text in every place that the file had |
| HaConfiguration.ConfigurationIsOrderIndependent | pkg/manager/ha_manager.go:310-339 | the two command maps of a pod, each in any order, give every key of `cubrid.conf` the same values in all orders if and only if the file does not name `log_max_archives` solely in the values of `ha_mode` and `force_remove_log_archives` |
| HaConfiguration.ConfigurationIsIdempotent | pkg/manager/ha_manager.go:310-339 | a second execution in any order leaves `cubrid.conf` unchanged if and only if the same condition holds |
| HaConfiguration.HaFileIsOrderIndependent | pkg/manager/ha_manager.go:310-339 | for `cubrid_ha.conf` both hold of every file |
| HaConfiguration.OtherLinesAreUntouched | pkg/manager/ha_manager.go:310-339 | on every file, lines that belong to no managed key are untouched and keep their order |
| HaConfiguration.OtherKeysAreSpared | pkg/manager/ha_manager.go:326-336 | the values of an unmanaged key of `cubrid.conf` stay as they are if and only if no line that `set_log_max_archives` overwrites is an active line of that key |
| HaConfiguration.OtherHaKeysAreSpared | pkg/manager/ha_manager.go:310-323 | the values of an unmanaged key of `cubrid_ha.conf` always stay as they are |
| HaManager.ConfigurationTakesEffect | config/scripts/operator_conf.sh:30-149 | after compatible edits in any order, on any file, each set key has its value and no other |
| HaConfiguration.CommandTakesEffect | pkg/manager/ha_manager.go:342-439 | after the commands of a pod ran in any order, on any files, every key that a command sets has its value and no other |
| CommonConfig.MasterIsConfigured | pkg/manager/ha_manager.go:410-424 | a pod of a master-slave group ends up with `ha_mode` on, `force_remove_log_archives` on, and the node list, sync modes and replica list of the group |
| CommonConfig.ReplicaIsConfigured | pkg/manager/ha_manager.go:427-439 | a pod of a replica group ends up with `ha_mode` replica, the replica list, and the node list and sync modes of the group if there are any |
| CommonConfig.CommonKeysTakeEffect | config/scripts/operator_conf.sh:78-112 | in every order the port, database list, memory size and log limit of `cubrid_ha.conf` keep the values that the file gives, a usable one behind a comment included, and get 59901, demodb, 300 and 1 if and only if the file gives no usable value |
| CommonConfig.HeaderTakesEffect | config/scripts/operator_conf.sh:69-76 | in every order the header lines become active with the rest of their line, and one is added if and only if there was none |
| LogArchives.ArchivesTakesEffect | config/scripts/operator_conf.sh:42-49 | on any file, `set_log_max_archives` leaves the key no other value than the new one if and only if each active line has its `=` right after the name or already gives the value, and gives it a value if and only if no line names it, or some line is overwritten or active |
| HaConfiguration.LimitTakesEffect | pkg/manager/ha_manager.go:342-439 | after the commands of a pod, in every possible order, `log_max_archives` has 900 and no other value if and only if every active line of the file has its `=` right after the name or gives 900, and the key is named by no line, or by one that is overwritten or active |
| LogArchives.OtherKeyIsSpared | config/scripts/operator_conf.sh:44-45 | the values of another key stay as they are, on any file, if and only if no overwritten line is an active line of that key |
| LogArchives.LongerKeyIsOverwritten | config/scripts/operator_conf.sh:44-45 | the line of every longer key that ends in `log_max_archives` is overwritten |
| LogArchives.PreparedIsUnmasked | config/scripts/operator_conf.sh:42-49 | once no line of another edited key is overwritten and some line names the key for good, a line that names it in the value of another edited key makes no difference to any order |
| LogArchives.MaskedIsOrderDependent | config/scripts/operator_conf.sh:42-49 | when only such lines name the key, running `set_log_max_archives` before the other edits leaves it without a value, and after them gives it one |
| HaGroup.CreateDNSList | pkg/manager/ha_manager.go:237-269 | the short DNS names in pod order, skipping pods without a known StatefulSet |
| HaGroup.BuildGroupHAConfig | pkg/manager/ha_manager.go:163-234 | node list, sync modes, replica list and the mode of each pod, from the group-type labels |
| HaGroup.GroupIsItsLabels | pkg/manager/ha_manager.go:163-234 | the node list is `cubrid@` and the hosts of the pods labelled master-slave, in pod order, with one `sync` each; the replica list that of the pods labelled replica; each is empty without such a pod |
| HaGroup.PodHasItsMode | pkg/manager/ha_manager.go:189-197 | with distinct pod names, a pod is in HA mode if and only if it is labelled master-slave, and in replica mode if and only if it is labelled replica |
| HaGroup.SyncModesMatchNodes | pkg/manager/ha_manager.go:203-207 | `ha_copy_sync_mode` has one `sync` for every host of `ha_node_list`; without a host they are empty and the bare `cubrid@` |
| HaGroup.ListNamesHost | pkg/manager/ha_manager.go:202-224 | a list names a host if and only if some pod of its mode has a StatefulSet that can be fetched; it is the bare `cubrid@` if and only if there are pods of the mode and none has |
| HaGroup.ListsAreNeverEmpty | pkg/manager/ha_manager.go:356-371 | a pod's mode implies that its group has that mode's list, be it the bare `cubrid@`, so the second round of commands repeats commands of the first on `cubrid_ha.conf` |
| PodNames.LastIndex | internal/controller/backupdb_controller.go:481-487 | the last position of the dash, or -1 |
| PodNames.StatefulSetNameIsMatch | pkg/manager/ha_manager.go:273-284 | the extracted name is the one group with which the regular expression can match |
| PodNames.ParsersInvertNaming | internal/controller/backupdb_controller.go:481-487 | both parsers recover the base of every `base-index` |
| PodNames.ParsersAgree | pkg/manager/ha_manager.go:273-284 | a non-empty regular-expression result is what the last dash gives; the two agree if and only if the name has no dash after its first character or is newline-free text, a dash and a number |
| PodNames.ParsersDisagree | internal/controller/backupdb_controller.go:481-487 | a name on which they differ |
| IngressServices.PodOfServiceName | pkg/manager/ingress_manager.go:220-229 | what the clean-up reads from a generated name: the pod name, followed by all but the last dashed part of the namespace |
| IngressServices.DecodeEncode | pkg/manager/ingress_manager.go:219-229 | decoding inverts encoding, for pod names with any dashes, if and only if the namespace has none |
| IngressServices.IngressManager.CreateOrUpdateService | pkg/manager/ingress_manager.go:169-198 | creates, or replaces everything but the owners |
| IngressServices.IngressManager.CleanupOrphanedIngressCMSServices | pkg/manager/ingress_manager.go:201-250 | deletes exactly the owned ingress CMS services whose decoded pod is no current replica |
| IngressServices.IngressManager.ReconcileIngressCMSServices | pkg/manager/ingress_manager.go:91-111 | the store after all creations and the clean-up |
| IngressServices.CreateAllAt | pkg/manager/ingress_manager.go:96-103 | service by service, what the creations leave |
| IngressServices.LiveServiceIsSpared | pkg/manager/ingress_manager.go:217-246 | the service of a live replica survives the reconcile if and only if the namespace has no dash or the service was there before and is not owned |
| IngressServices.CleanupIsExact | pkg/manager/ingress_manager.go:91-111 | in a dash-free namespace, from any earlier store, a service with the name of a pod's service is there and owned if and only if the pod is a current replica and the service was not there unowned before |
| IngressServices.ForeignNameIsKept | pkg/manager/ingress_manager.go:223-245 | an owned service under any other name ending in `-cms-svc` is kept if and only if the name has too few parts or reads as a current replica |
| IngressServices.OthersAreUntouched | pkg/manager/ingress_manager.go:201-250 | services that are not owned and bear no replica's name are unchanged, in any namespace |
| IngressServices.LiveServiceSelectsPod | pkg/manager/ingress_manager.go:114-166 | afterwards each replica has, under the name pod-namespace-cms-svc, a service that selects its pod on the CMS port with the operator's label, owned by the database when it is new and by its earlier owners otherwise |
| Admission.CubridDB.FillWithDefaults | api/v1/cubriddb_types.go:269-289 | fills the HA mode and the reference, and nothing else |
| Admission.CubridDB.FillReplication | api/v1/cubriddb_types.go:249-262 | fills the replication in place, without changing what the object means when it is filled to the end |
| Admission.CubridDB.InitAffinity | api/v1/cubriddb_types.go:388-400 | a missing anti-affinity follows replication; the rest keeps its meaning |
| Admission.CubridDB.Default | api/v1/cubriddb_webhook.go:59-76 | every given field stays, none is missing in the end, and the result is the specified object, through the initialisers in turn |
| Admission.DefaultedIsComplete | api/v1/cubriddb_webhook.go:59-76 | after defaulting no modelled field is missing and the replica count is positive |
| AdmissionRules.DefaultValues | api/v1/cubriddb_types.go:333-457 | image, CMS type, start port and CMS port get their documented values when they are not given |
| AdmissionRules.DefaultReplicationIs | api/v1/cubriddb_types.go:249-262 | replication stays as given and is off by default, with at least one replica and HA port 59901 |
| AdmissionRules.DefaultAffinityIs | api/v1/cubriddb_types.go:388-400 | a missing anti-affinity is on if and only if replication is given as enabled |
| AdmissionRules.DefaultModeIs | api/v1/cubriddb_types.go:269-289 | defaulting changes neither the HA type that is meant, master-slave when none is given, nor the master that is named |
| AdmissionRules.DefaultBrokersAre | api/v1/cubriddb_types.go:310-331 | without brokers there are the query editor and one broker, on their ports |
| AdmissionRules.DefaultStoragesAre | api/v1/cubriddb_types.go:342-386 | without storages there are the four of the database, 2 GiB each |
| Admission.DefaultsAreAdmitted | api/v1/cubriddb_webhook.go:59-104 | a creation is refused if and only if something that was given is invalid, never for a default |
| Admission.DefaultingIsIdempotent | api/v1/cubriddb_types.go:249-289 | defaulting twice gives the same as once if and only if no affinity is given or the CubridRef of the HA mode is |
| Admission.SecondDefaultChangesType | api/v1/cubriddb_types.go:269-289 | an object with an affinity and no HA mode gets the HA type master-slave at the second application only |
| Admission.DefaultingSettles | api/v1/cubriddb_types.go:249-289 | two applications always settle |
| Admission.CubridDB.ValidateHA | api/v1/cubriddb_webhook.go:106-122 | accepts exactly when disabled replication has one replica |
| Admission.CubridDB.ValidateCubridDBByRefName | api/v1/cubriddb_webhook.go:124-186 | accepts exactly when an enabled replica names a master that no other object names |
| Admission.CubridDB.ValidateCMSService | api/v1/cubriddb_webhook.go:188-246 | accepts exactly a known type and, for NodePort, ports in their ranges |
| Admission.CubridDB.ValidateBrokerServicePort | api/v1/cubriddb_webhook.go:437-456 | accepts exactly when each non-zero NodePort broker port is in range |
| Admission.CubridDB.ValidateBrokerServiceType | api/v1/cubriddb_webhook.go:459-476 | accepts exactly when every broker is ClusterIP or NodePort |
| Admission.CubridDB.ValidateUniqueStorageNames | api/v1/cubriddb_webhook.go:694-706 | accepts exactly when no non-empty storage name occurs twice |
| Admission.CubridDB.ValidateStorageConfiguration | api/v1/cubriddb_webhook.go:586-665 | accepts exactly when each storage is valid on its own and the names are unique |
| Admission.CubridDB.ValidateCreate | api/v1/cubriddb_webhook.go:84-104 | accepts exactly when all eight validators do, although each may fill the object in further |
| Admission.CubridDB.ValidateImmutableFields | api/v1/cubriddb_webhook.go:383-434 | accepts exactly when the CMS type and the class and volume of every storage are unchanged |
| Admission.CubridDB.ValidateUpdateHA | api/v1/cubriddb_webhook.go:274-336 | accepts exactly when enable and HA type are unchanged and the mode's own rules hold, on both objects filled to the end |
| Admission.CubridDB.ValidateUpdateStartPort | api/v1/cubriddb_webhook.go:357-380 | accepts exactly when the start port, if given twice, is unchanged |
| Admission.CubridDB.ValidateUpdate | api/v1/cubriddb_webhook.go:249-272 | accepts exactly when all update validators do |
| AdmissionRules.CreationRules | api/v1/cubriddb_webhook.go:84-246 | a creation is accepted if and only if the given fields meet the rules, each written out with its constants: one replica without replication, a named and free master for a replica, the CMS type and port ranges, broker types and ports, the HA port, and storages |
| AdmissionRules.UpdateRules | api/v1/cubriddb_webhook.go:249-434 | an update between stored objects is accepted if and only if CMS type, start port, storages, replication and HA type are unchanged, the type is known, the mode's own rules hold, and brokers and storages are valid, each written out |
| Admission.CreateKeeps | api/v1/cubriddb_webhook.go:84-104 | an admitted creation has every kept property |
| Admission.UpdateKeeps | api/v1/cubriddb_webhook.go:249-272 | an admitted update keeps them, relative to the first object of the history |
| Admission.AdmittedHistoriesKeep | api/v1/cubriddb_webhook.go:59-137 | over every admitted history replication enable, storages, CMS type, start port and (when enabled) HA type never change; a NodePort start port stays in range; disabled replication has one replica; a replica names a master; storage names are unique |
| AdmissionRules.HistoriesKeepRules | api/v1/cubriddb_webhook.go:59-137 | the same, in the fields and constants of the objects themselves |
| Admission.HaTypeIsNotCheckedAtCreation | api/v1/cubriddb_webhook.go:84-137 | a creation answers the same for any two HA types other than a replica's |
| Admission.UnknownTypeIsFrozen | api/v1/cubriddb_webhook.go:274-336 | at the end of any admitted history some update is accepted if and only if replication is disabled or the HA type is master-slave or replica |
| Admission.UnknownTypeIsAdmitted | api/v1/cubriddb_webhook.go:84-104 | for every unknown type a concrete object that a creation admits and no update can change |
| MasterReferences.StealingBreaksDistinct | api/v1/cubriddb_webhook.go:142-183 | an admitted event leaves no two replicas of the namespace with one master if and only if it is not an update that points a replica at another replica's master |
| MasterReferences.RunsKeepMasters | api/v1/cubriddb_webhook.go:142-183 | over every admitted history of all objects of a namespace without such an update no two replicas name the same master |
| MasterReferences.StealingIsAdmitted | api/v1/cubriddb_webhook.go:274-336 | an admitted replica can be pointed at the master of any other replica by an update |
| ReplicaLinks.CubridDB.AddReplicaLink | pkg/util/utility.go:134-163 | the new link string, for a missing, empty or filled link |
| ReplicaLinks.CubridDB.RemoveReplicaLink | pkg/util/utility.go:166-184 | the new link string, without every occurrence of the name |
| ReplicaLinks.CubridDB.SplitReplicaLink | pkg/util/utility.go:187-194 | the parts are free of colons and join to the link again, and there are none exactly for the empty link |
| ReplicaLinks.RunRefines | pkg/util/utility.go:134-184 | any sequence of adds and removes on the string refines inserts and removals on an ordered set |
| ReplicaLinks.LinkIsOrderedSet | pkg/util/utility.go:134-194 | from the empty link, splitting gives the distinct names in insertion order |
| ReplicaLinks.RemoveUndoesAdd | pkg/util/utility.go:134-184 | adding an absent name and removing it restores the same string |
| ReplicaLinks.RemoveTakesOut | pkg/util/utility.go:166-184 | removing a name leaves the others in their order |
| HaStatus.CollectIsOrderIndependent | internal/controller/cubriddb_controller_status.go:159-172 | with consistent short names the nodes do not depend on the order in which the map is visited |
| HaStatus.ClashIsOrderDependent | internal/controller/cubriddb_controller_status.go:158-205 | two keys with one short name, of different states and at least one known role: two orders of the map that give different lists |
| HaStatus.GetSortedNodesByRole | internal/controller/cubriddb_controller_status.go:178-187 | the names of the role, each once, in ascending order |
| HaStatus.ParseHANodesStatus | internal/controller/cubriddb_controller_status.go:158-205 | for the order in which the map happens to be visited, the lines of the canonical list |
| HaStatus.NodeIsDescribed | internal/controller/cubriddb_controller_status.go:162-172 | a key gives a node if and only if it starts with node, does not end in `_state`, and has two string values; the host is the value up to its first dot, the state that of the `_state` key |
| HaStatus.ListIsDescribed | internal/controller/cubriddb_controller_status.go:158-205 | with one key per host, a line is in the list if and only if some key describes a host in one of the three roles, in any case, and the line is host and state |
| HaStatus.ListIsSorted | internal/controller/cubriddb_controller_status.go:174-202 | masters come before slaves before replicas, and hosts of one role in order of their names |
| HaStatus.RankIsRole | internal/controller/cubriddb_controller_status.go:180-182 | the roles are master, slave and replica, in any case |
| HaStatus.BelowIsByteOrder | internal/controller/cubriddb_controller_status.go:185 | a name is before another if and only if it is a beginning of it or smaller at the first difference |
| HaStatus.CanonicalIsUnique | internal/controller/cubriddb_controller_status.go:189-202 | there is only one canonical list of given nodes |
| HaStatus.StatusIsCanonical | internal/controller/cubriddb_controller_status.go:158-205 | one response always gives the same list when nodes of one short name have equal states or both an unknown role |
| HaStatus.ListIsDetermined | internal/controller/cubriddb_controller_status.go:158-205 | a response gives the same list in every map order if and only if nodes of one short name have equal states or both an unknown role |
| HaStatus.SplitLine | internal/controller/cubriddb_controller_status.go:112-114 | splitting a line at `: ` gives back name and state when neither contains it |
| HaStatus.CurrentMaster | internal/controller/cubriddb_controller_status.go:112-118 | the name on the first master line, or the old name |
| HaStatus.MasterIsFirst | internal/controller/cubriddb_controller_status.go:112-118 | the chosen master is the alphabetically first node whose state is literally `master` and whose name has no `: `, for every node map; without one the old name stays |
| HaStatus.ChoiceIsFirstMaster | internal/controller/cubriddb_controller_status.go:112-118 | it is the first master of the list, which folds case, if and only if that one's state is spelled `master` and its name has no `: ` |
| HaStatus.MasterLineIff | internal/controller/cubriddb_controller_status.go:112-114 | a line counts as a master's if and only if its state is literally `master` and its name has no `: ` |
| HaStatus.CubridDBReconciler.UpdateCubridDBStatus | internal/controller/cubriddb_controller_status.go:40-155 | the status for each observation; it is stored with the time exactly when it changed apart from the time, and an unreachable CMS is reported only then |
| HaStatus.AnswerIsDescribed | internal/controller/cubriddb_controller_status.go:109-119 | after an answer with one key per host: the lines of the described hosts, and as current master the first host in name order with the state `master` and no `: ` in its name, else the old one |
| HaStatus.ObservingTwiceChangesNothing | internal/controller/cubriddb_controller_status.go:126-140 | the same observation again leads to the same status, whatever the map order, so nothing is stored |

## Left out

Assumptions of the model:

- Backups: at most one backup per date, `_bkvinf` a stack of levels (a backup of some level drops the entries
  at or above it, a failed one changes nothing), and a file in a date directory, when there is one, is the
  copy made then; several levels on one date, failing deletions and the emptying of parent directories are
  not modelled. Dates are ordered numbers, and the deletion date is a parameter, any date.
- Services: a created service is visible to the next list, API calls succeed, and looking for a port and
  creating the service is one step; defaulting of service fields and rejection of ports by the API server are
  not modelled, and the int32 port counter does not wrap.
- NodePortRuns.RunsKeepDistinct: requires of each reconcile that no service in another namespace has a name it
  uses and that a service there has a port, because uniqueness fails without either;
  `DashFreeRunsKeepDistinct` derives both from conditions on the databases and the added services; of the stores
  of the run it only asks what the API server does, that an added service is new and on unused ports.
- HaConfiguration.ConfigurationIsOrderIndependent: about the values of keys; where a key stands in its section is
  not modelled, so a `[common]` header is taken to be there already or appended.
- Values of HA commands carry no sed or shell metacharacters; the script's second grep branches cannot be
  reached when the first one fails and are not written out.
- HaConfiguration.CommandTakesEffect: covers the keys that a command sets outright; `LimitTakesEffect`, `CommonKeysTakeEffect` and
  `HeaderTakesEffect` cover the others.
- StatusUpdates.Controller.UpdateStatus: an API error other than a conflict is taken to have written nothing.
- ReplicaSync.StabilisesAfterCrashes: both counts are at least 1 and HA is enabled; `SingleModeAdoptsOnlyOne` says what
  single mode does.
- Admission.AdmittedHistoriesKeep: about one object, so the list that its creation is compared with is a parameter;
  `RunsKeepMasters` is about all objects of a namespace. Objects stored before the webhook was there are not
  modelled.
- Cron: letters in `\d` are ASCII digits, as in Go's regular expressions; a schedule is a sequence of characters, so
  invalid UTF-8 is not modelled. What the cron library does with an accepted expression is the `addOk` answer.

Parts of the operator that are not modelled:

- Kubernetes clients, informers, pod exec, HTTP to the CMS, JSON decoding, logging, clocks and delays: stores,
  parameters or nondeterministic choices stand for them.
- Cancellation and retry goroutines of BackupDB, beyond being callers of `updateStatus`: nothing in the code
  decides an invariant of the cancel maps.
- `protectCRManagedService`, `cleanupServices`, the broker and headless services: one-pass create-or-delete.
- The Ingress resource and its rules: create or update of one object.
- Admission.CubridDB.Default: without the update strategy, the container template and the claim templates'
  metadata, which no modelled validator reads.
- Fields of a BackupDB other than the schedule: filled or compared field by field.
- Storing a replica link through the API server, and removal of the link when a CubridDB is deleted.
- Pod, volume and StatefulSet construction, RBAC, certificates, deep copies, Helm and YAML.
- Copying of configuration, lob, Java and archive directories by `backupdb.sh`, and its option parsing.
