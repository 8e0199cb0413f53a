# Verified models of the MySQL operator's core

This project models the parts of the operator that carry real invariants and proves them in Dafny 4.11.
`dafny verify dfyconfig.toml` checks everything. One module per subsystem:

| file | what it models |
|---|---|
| RollingUpdate.dfy | the rolling update of a StatefulSet against an API server that may answer anything |
| ClusterState.dfy | the cluster state machine of the status syncer |
| XenonPeers.dfy | reconciliation of the Xenon peer lists by single calls that may fail |
| NodeTable.dfy | the table of node statuses: lookup, append, in-place trim over a shared backing array |
| MergePatch.dfy | JSON Merge Patch (section 2 of RFC 7386) and the pure tree the builder stands for |
| MergeBuilder.dfy | the builder itself: nested mutable maps and delayed value functions on the heap |
| JsonPatch.dfy | JSON Pointer (sections 3 and 4 of RFC 6901) and the JSON Patch builder (RFC 6902) |
| IniMerge.dfy | merging configuration maps into an ini section modulo `-` and `_` |
| UserReconcile.dfy | the user controller: revision cache, host difference, finalizer |
| SqlTemplate.dfy, SqlEscape.dfy | the SQL that creates users: templates with arguments, and literal escaping |
| BufferPool.dfy | sizing of the InnoDB buffer pool |
| CronBackup.dfy | scheduled backups and their retention |
| SpecConversion.dfy | conversion of the cluster spec between v1alpha1 and v1beta1 |
| Naming.dfy, GoStrings.dfy | names, ordinals, peers, server ids; the string functions of Go they use |
| Lists.dfy | list difference, listing and sorting, shared by the modules above |

Code that works by assignment is a class or a method with loops, proved against functions; results about
runs, traces and round trips are lemmas about those functions. Answers of the environment (API server,
MySQL, Xenon, timeouts) are parameters or havocked values, so the results hold for every answer.

## Assumptions

- The API server lists pods with distinct, nonempty names, and a Get for a name returns a pod of that name or
  leaves the caller's copy alone.
- A Xenon or MySQL call that reports success took effect; one that reports failure may or may not have.
- The revision of a user resource (a 32-bit hash of the query) is injective, the user name does not change and
  nobody else edits the accounts. Whether the update that adds the finalizer brings the stored revision back
  into memory is left open: both cases are covered.
- A cluster that is not found when a user is removed is taken to be deleted with its accounts, as the code does:
  the model shows that nothing is dropped then.
- Results about runs of cron ticks assume creation times that increase strictly, and ticks that are not
  interleaved with other changes. A single tick is modelled for equal times too.
- Quantities are known by their canonical text, which parses to itself; parsing the empty string panics.
- Percentages of the memory are exact and rounded down, in both sizing routines.
- Bytes are modelled as characters where the code works on bytes.

## Findings

- A cluster scaled to zero replicas while Updating stays Updating as long as it is at zero
  (`ClusterState.UpdatingStuckAtZero`).
- `mysqlcluster/syncer/status.go` says that the read-only rows are always the last ones. After a scale-out they
  are not: the next scale-in can keep the row of the deleted pod and drop a live read-only row
  (`NodeTable.ScaleInCanDropReadOnlyRow`), and removing the read-only nodes leaves a stale row that hides a pod
  for good (`NodeTable.StaleRowStaysForever`). `NodeTable.RecoversExactly` says exactly which tables recover.
- If the spec asks for more read-only nodes than are listed, a pod can get two rows
  (`NodeTable.MissingReadOnlyDuplicatesRow`; exact condition in `NodeTable.TrimKeepsDistinct`).
- If dropping hosts succeeds, the query after it fails, and the spec is then set back, the unchanged revision
  hides the loss of the accounts (`UserReconcile.LossIsReachable`).
- If the query takes effect, the finalizer or the status cannot be saved, and the spec then moves to other hosts,
  the first accounts are on no record: no later reconcile and no removal drops them
  (`UserReconcile.LeakIsReachable`). `UserReconcile.FinishedExactly` and `UserReconcile.RemovalExactly` give the
  exact conditions for every state. `UserReconcile.AccountsMatchSpec` and `UserReconcile.RemovalLeavesNothing` show
  that both take an edit, or a deletion, that comes before the failed reconcile has been retried with success.
- The reconcile that adds the finalizer can lose the new revision, and then the next one writes once more
  (`UserReconcile.RepeatIsQuiet`).
- The comment in `backup/cronbackup.go` speaks of recurrent backups of the cluster, but the running check
  lists every backup of every cluster, and a failed list counts as none. A tick whose list fails can then create a
  second running backup (`CronBackup.TickKeepsInvExactly`) or, with a history limit of one, delete the running one
  (`CronBackup.FailedListLosesRunning`; exact condition in `CronBackup.RunningSurvives`).
- A merge patch built by several calls is not always what the calls do one after another
  (`MergePatch.OneMoreCallExactly` for one call, `MergePatch.BuiltIsApplied` for a whole sequence).
- A key that mixes `-` and `_` can end up twice in the configuration (`IniMerge.PutKeepsClassSingle`), and two
  spellings of one key in the same map make the result depend on Go's map order
  (`IniMerge.OrderIrrelevantExactly`).
- Question marks in a user's privileges, databases, tables or TLS type unbalance the query
  (`SqlTemplate.PlaceholdersAgainstArguments`).
- Converting a cluster spec with a zero size there and back gives a spec that cannot be converted again
  (`SpecConversion.RoundTripIsNormalForm`).
- Server ids of regular and read-only pods collide beyond 100 replicas (`Naming.ServerIdsDistinct`).

## Model

| member | source | states |
|---|---|---|
| RollingUpdate.StatefulSetSyncer.UpdatePod | mysqlcluster/syncer/statefulset.go:331-391 | every run, on every exit, leaves a safe trace; no event at all when all replicas are updated, one is unready or a backup runs; past these it succeeds exactly if the answers for every listed pod let it, and success means every listed pod was confirmed and is settled; any delete implies state Updating |
| RollingUpdate.StatefulSetSyncer.UpdateListed | mysqlcluster/syncer/statefulset.go:361-390 | the loop over the pods and the deferred leader: safe trace; success exactly if every listed pod goes well, with full confirmation; a successful run deletes exactly the pods whose answers ask for it, and no run any other |
| RollingUpdate.StatefulSetSyncer.ApplyNWait | mysqlcluster/syncer/statefulset.go:530-599 | touches one pod only; confirms it exactly if its polls succeed, deletes it exactly if its first poll asks for it; sets Updating exactly when the pod was outdated |
| RollingUpdate.StatefulSetSyncer.DeleteUntilUpdated | mysqlcluster/syncer/statefulset.go:541-561 | outcome, copy and deletes of the first poll for every sequence of answers; deletes only for an outdated, not terminating copy |
| RollingUpdate.StatefulSetSyncer.WaitHealthy | mysqlcluster/syncer/statefulset.go:569-598 | the outcome of the second poll for every sequence of answers; success is exactly confirmation of this pod, with a settled last copy |
| RollingUpdate.StatefulSetSyncer.CheckHealthy | mysqlcluster/syncer/statefulset.go:363-372 | passes exactly with the first healthy copy, and records whether it is the first leader |
| RollingUpdate.BackupIsRunning | mysqlcluster/syncer/statefulset.go:602-620 | true exactly when a successfully read list holds an incomplete backup |
| RollingUpdate.DeleteMeaning | mysqlcluster/syncer/statefulset.go:361-389 | at every Delete the last copy is outdated, its health check passed before, all other deleted pods are back and settled, and for the first leader all other listed pods are confirmed and settled |
| RollingUpdate.CheckMeaning | mysqlcluster/syncer/statefulset.go:361-382 | a health check is made on a healthy last copy, with nothing in flight and all earlier pods done but the deferred leader |
| RollingUpdate.ConfirmedStaysSettled | mysqlcluster/syncer/statefulset.go:563-599 | a confirmed pod was last seen healthy at the update revision, or is out of range, for the rest of the run |
| RollingUpdate.OneAtATime | mysqlcluster/syncer/statefulset.go:331-391 | at every moment, so at every error exit, at most one pod is deleted and not confirmed back |
| RollingUpdate.SummaryMeaning | mysqlcluster/syncer/statefulset.go:361-389 | the program state used in the proofs says exactly what the trace contains |
| RollingUpdate.VerdictExactly | mysqlcluster/syncer/statefulset.go:575-597 | over the fields of the pod: when the second poll succeeds, when it goes on and when it gives up |
| RollingUpdate.CheckPollExactly | mysqlcluster/syncer/statefulset.go:363-372 | the health check passes exactly if some answer leaves a healthy copy, and with the first one |
| RollingUpdate.ReplacePollExactly | mysqlcluster/syncer/statefulset.go:541-561 | the first poll succeeds exactly if some attempt finds the pod replaced and every one before it goes on, with every requested delete accepted |
| RollingUpdate.DeletesExactly | mysqlcluster/syncer/statefulset.go:541-561 | a delete is sent exactly if the pod is found outdated and not terminating before it is found replaced |
| RollingUpdate.WaitPollExactly | mysqlcluster/syncer/statefulset.go:569-598 | the second poll succeeds exactly if some answer shows the pod back and before that it was always starting |
| RollingUpdate.GoesWellExactly | mysqlcluster/syncer/statefulset.go:361-390 | the answers let a listed pod go well, and be deleted, in terms of the copies read in the three polls |
| RollingUpdate.OutdatedPodGoesWell | mysqlcluster/syncer/statefulset.go:530-599 | an outdated pod that is deleted, absent for any time, back at the new revision and healthy in the end goes well |
| ClusterState.StatusSyncer.UpdateClusterStatus | mysqlcluster/syncer/status.go:303-344 | the early-return cascade assigns exactly the reclassified state |
| ClusterState.StatusSyncer.Sync | mysqlcluster/syncer/status.go:139-247 | new state and ready count, including a failed pod list and pods being rebuilt |
| ClusterState.UpdatingUntilReady | mysqlcluster/syncer/status.go:303-318 | in every run Updating lasts exactly until the first good Sync and is left only to Ready |
| ClusterState.UpdatingStuckAtZero | mysqlcluster/syncer/status.go:229-240 | every run at zero replicas that starts Updating stays Updating |
| ClusterState.ReadyHasAWitness | mysqlcluster/syncer/status.go:229-236 | Ready goes back to a Sync with ready pods = replicas ≠ 0 and a successful Xenon reconcile, and the state was Ready ever since |
| ClusterState.StaleReadyIsShortLived | mysqlcluster/syncer/status.go:326-338 | a Ready state with a wrong count is gone after the next Sync of the same spec |
| ClusterState.ClosesInTwo | mysqlcluster/syncer/status.go:319-325 | two successive Syncs at zero replicas close any cluster not Updating |
| ClusterState.ClosedExactly | mysqlcluster/syncer/status.go:303-344 | exactly when a Sync ends in Closed |
| ClusterState.ReadyExactly | mysqlcluster/syncer/status.go:229-236 | exactly when a Sync ends in Ready |
| ClusterState.ScaleOutExactly | mysqlcluster/syncer/status.go:326-338 | exactly when a Sync ends in ScaleOut |
| ClusterState.ScaleInExactly | mysqlcluster/syncer/status.go:326-338 | exactly when a Sync ends in ScaleIn |
| ClusterState.InitializingExactly | mysqlcluster/syncer/status.go:303-314 | exactly when a Sync ends in Initializing |
| ClusterState.UpdatingExactly | mysqlcluster/syncer/status.go:315-318 | a Sync ends in Updating exactly if it began so and is not good |
| ClusterState.CountExactly | mysqlcluster/syncer/status.go:176-229 | the counter is the number of listed pods that are ready and not being rebuilt |
| Lists.StringDiffIn | utils/common.go:109-127 | the loop computes the ordered difference |
| Lists.DiffMeaning | utils/common.go:109-127 | the difference has exactly the elements of the set difference and no new duplicates |
| XenonPeers.StatusSyncer.ReconcileXenon | mysqlcluster/syncer/status.go:566-584 | whatever fails, what took effect is a prefix of the plan; it stops at the first failed ping or call and succeeds exactly if there is none, with the whole plan in effect and every regular node pinged twice |
| XenonPeers.StatusSyncer.ReconcileNode | mysqlcluster/syncer/status.go:569-582 | the same for one node; read-only nodes are skipped |
| XenonPeers.StatusSyncer.RemoveNodesFromXenon | mysqlcluster/syncer/status.go:594-604 | removals take effect in order up to the first failure |
| XenonPeers.StatusSyncer.AddNodesInXenon | mysqlcluster/syncer/status.go:606-616 | additions take effect in order up to the first failure |
| XenonPeers.PassStaysBetween | mysqlcluster/syncer/status.go:566-616 | at every intermediate or aborted point no expected peer was removed and every view lies between actual ∩ expected and actual ∪ expected |
| XenonPeers.CompletePassReachesExpected | mysqlcluster/syncer/status.go:566-584 | with truthful reports a complete pass leaves every regular node exactly the expected peers |
| XenonPeers.EveryEffectCounts | mysqlcluster/syncer/status.go:566-616 | with duplicate-free lists every effect lowers the total symmetric difference by exactly one |
| XenonPeers.PlanLength | mysqlcluster/syncer/status.go:566-584 | a plan has exactly as many calls as there are differences |
| XenonPeers.ReconcileRounds | mysqlcluster/syncer/status.go:229-236 | over any number of passes that may fail, effects plus remaining distance are conserved, and a successful last pass leaves distance zero |
| XenonPeers.NodeKind | mysqlcluster/syncer/status.go:570-572 | the name prefix tells read-only pods from regular ones |
| NodeTable.Table.GetStatusIndex | mysqlcluster/syncer/status.go:495-531 | returns the first row of the name, or appends one fresh row with unknown conditions |
| NodeTable.FreshRowConditions | mysqlcluster/syncer/status.go:503-529 | a fresh row has the conditions of its kind, unknown, each at the index where it is written |
| NodeTable.Table.Trim | mysqlcluster/syncer/status.go:480-490 | in place or not, the rows are the first pods followed by the last read-only ones; a number out of range panics and changes nothing |
| NodeTable.Table.UpdateRows | mysqlcluster/syncer/status.go:405-491 | one pass: read-only lookups, pod lookups, trim |
| NodeTable.MoveWithin | mysqlcluster/syncer/status.go:486-486 | the overlapping copy inside one backing array moves the old rows |
| NodeTable.LookupsKeepDistinct | mysqlcluster/syncer/status.go:804-840 | the two lookups never create a second row for a name and add exactly the names looked up |
| NodeTable.TrimKeepsDistinct | mysqlcluster/syncer/status.go:480-490 | names stay distinct exactly when the table has at least pods + read-only rows |
| NodeTable.TrimKeepsLiveExactly | mysqlcluster/syncer/status.go:480-490 | the trimmed table is exactly the live nodes if and only if no live row is cut out; it always has one row per live node |
| NodeTable.PassFacts | mysqlcluster/syncer/status.go:405-491 | a pass with all read-only nodes listed never panics, keeps names distinct and leaves one row per live node; the rows are the live nodes exactly when no live row is cut out |
| NodeTable.PassesKeepDistinct | mysqlcluster/syncer/status.go:405-491 | over every run of such passes names are distinct with one row per live node |
| NodeTable.RecoversExactly | mysqlcluster/syncer/status.go:480-490 | in a cluster that no longer changes, the table ever becomes exactly the live nodes if and only if the rows in front are live; then after at most one pass more than there are read-only nodes, and for good |
| NodeTable.SteadyTable | mysqlcluster/syncer/status.go:405-491 | a table with exactly the live rows is a fixed point |
| NodeTable.ScaleInCanDropReadOnlyRow | mysqlcluster/syncer/status.go:480-490 | three passes from the empty table after which a scale-in drops a live row |
| NodeTable.MissingReadOnlyDuplicatesRow | mysqlcluster/syncer/status.go:480-490 | passes from the empty table after which a pod has two rows |
| NodeTable.StaleRowStaysForever | mysqlcluster/syncer/status.go:480-490 | passes from the empty table after which no number of further passes gives the last pod a row |
| MergePatch.MergeAtLeaf | controllers/backup/kubeapi.go:137-144 | applying a patch sets every value of it and removes at every null, in any target |
| MergePatch.MergeElsewhere | controllers/backup/kubeapi.go:137-144 | paths the patch does not mention keep their value |
| MergePatch.SinglePatch | controllers/backup/kubeapi.go:145-177 | a single-path patch sets or removes exactly that path in every target |
| MergePatch.OneMoreCallExactly | controllers/backup/kubeapi.go:145-177 | the patch after one more call equals the patch followed by the call, for all targets, exactly when the walk replaces no value |
| MergePatch.MarkedCall | controllers/backup/kubeapi.go:145-177 | calls applied in turn do what the patch does whose maps remember having replaced a value |
| MergePatch.BuiltIsApplied | controllers/backup/kubeapi.go:145-177 | for every sequence of calls: the built patch does to every target what the calls do in turn, if and only if no map put in place of a value is left in it |
| MergePatch.OverwrittenAgain | controllers/backup/kubeapi.go:145-177 | a replaced value that is set again restores the agreement |
| MergeBuilder.Patch.Walk | controllers/backup/kubeapi.go:146-156 | the loop ends at the map of the parent path and changes nothing about the final result of setting the path |
| MergeBuilder.Patch.Add | controllers/backup/kubeapi.go:145-171 | the heap tree becomes the pure tree with a placeholder at the path; an empty path does nothing |
| MergeBuilder.Patch.Set | controllers/backup/kubeapi.go:158-166 | a delayed value call sets its path if its map is still reached from the root, and otherwise leaves the patch unchanged |
| MergeBuilder.Patch.Remove | controllers/backup/kubeapi.go:175-177 | the pure tree with null at the path |
| MergeBuilder.Patch.Build | controllers/backup/kubeapi.go:145-177 | for every sequence of completed calls the heap tree is the fold of the pure tree-set function |
| MergeBuilder.RootDenotesTree | controllers/backup/kubeapi.go:129-171 | reading the maps from the root gives that tree, and no map is reached by two paths: nothing is shared or cyclic |
| MergeBuilder.AtAfterSet | controllers/backup/kubeapi.go:145-171 | what the tree has at every path after one path is set |
| MergeBuilder.SetThroughNew | controllers/backup/kubeapi.go:148-156 | creating missing maps on the way does not change where the walk ends up |
| JsonPatch.Pointer | controllers/backup/kubeapi.go:41-50 | the loop builds the escaped pointer |
| JsonPatch.DecodePointer | controllers/backup/kubeapi.go:27-50 | decoding the pointer of any token list returns the tokens, and the pointer is valid |
| JsonPatch.PointerOfDecode | controllers/backup/kubeapi.go:27-50 | every valid pointer is the encoding of what it decodes to |
| JsonPatch.JSON6902.Execute | controllers/backup/kubeapi.go:65-115 | any script of builder calls on the mutable list equals its pure result |
| JsonPatch.OperationsKeepTheirPlace | controllers/backup/kubeapi.go:65-115 | for any interleaving the k-th entry is the k-th created operation with the last value given to it |
| JsonPatch.OperationsAddressTheirPath | controllers/backup/kubeapi.go:41-115 | every finished operation decodes to the path it was created for |
| IniMerge.Section.AddKVConfigsToSection | mysqlcluster/syncer/mysql_cm.go:362-389 | the result is the keys of each map put in an order sorting allows; it is unique when no map has two spellings of one key |
| IniMerge.ConfigMap.CreateOrReplaceIniKey | mysqlcluster/syncer/mysql_cm.go:216-253 | merges into one file, or fails exactly on an empty key the file does not have and changes nothing |
| IniMerge.MergeIsOverride | mysqlcluster/syncer/mysql_cm.go:362-389 | the canonical view is overridden by the patches in order, classes stay single, old keys keep place and spelling |
| IniMerge.MergeOrderUnique | mysqlcluster/syncer/mysql_cm.go:401-413 | a map without two spellings of one key can be met in one order only, whatever the map order and the sorting method |
| IniMerge.OrderIsStrict | mysqlcluster/syncer/mysql_cm.go:401-413 | the keys are met in ascending order of their canonical spelling |
| IniMerge.MergeTwice | mysqlcluster/syncer/mysql_cm.go:224-244 | merging the same patch again changes nothing |
| IniMerge.PutView | mysqlcluster/syncer/mysql_cm.go:373-386 | one key: override of its class, and the key list before and after |
| IniMerge.PutExactly | mysqlcluster/syncer/mysql_cm.go:373-386 | for every section and key: under which spelling the value is set, and that every other entry stays |
| IniMerge.PutKeepsClassSingle | mysqlcluster/syncer/mysql_cm.go:373-386 | exactly when one key keeps its class single in any section |
| IniMerge.MixedKeyIsDuplicated | mysqlcluster/syncer/mysql_cm.go:373-386 | a mixed key is missed and duplicated |
| IniMerge.OrderIrrelevantExactly | mysqlcluster/syncer/mysql_cm.go:364-387 | for every map: all orders give the same result on all sections if and only if no two keys are spellings of one key |
| IniMerge.FirstSpellingStays | mysqlcluster/syncer/mysql_cm.go:373-386 | in a section merged from nothing each class is spelled as it was first met |
| UserReconcile.Reconciler.ReconcileUserInDB | controllers/mysqluser_controller.go:164-217 | outcome, revision, accounts and number of writes for every way the calls can be answered |
| UserReconcile.Reconciler.ReconcileUserInCluster | controllers/mysqluser_controller.go:131-160 | the whole new state and the outcome for every way the calls can be answered, late failures included |
| UserReconcile.Reconciler.RemoveUser | controllers/mysqluser_controller.go:107-244 | the finalizer goes after every recorded account was dropped, or without any drop when the cluster is gone |
| UserReconcile.GoneClusterLetsGo | controllers/mysqluser_controller.go:219-230 | without a cluster the finalizer goes exactly if the resource can be updated, and no account is dropped |
| UserReconcile.GoneExactly | controllers/mysqluser_controller.go:107-244 | over any attempts the finalizer is gone exactly if one could update the resource and met no cluster or dropped every recorded host |
| UserReconcile.DropsExactly | controllers/mysqluser_controller.go:188-193 | a host loses its account exactly if a drop for it took effect |
| UserReconcile.FinishesExactly | controllers/mysqluser_controller.go:131-217 | a reconcile finishes exactly if all calls it has to make succeed, and how many writes it then sent; exactly when it fails early |
| UserReconcile.FailureKeepsRecord | controllers/mysqluser_controller.go:131-160 | a failed reconcile keeps the recorded hosts, and records the new revision only with all wanted accounts present |
| UserReconcile.FinishedIsCompleted | controllers/mysqluser_controller.go:131-217 | a finished reconcile in set terms: recorded and unwanted accounts go, wanted ones come unless the revision is current |
| UserReconcile.NoOtherAccountTouched | controllers/mysqluser_controller.go:188-215 | however a reconcile ends, no wanted or unrecorded account is dropped and only wanted ones appear |
| UserReconcile.FinishedExactly | controllers/mysqluser_controller.go:164-217 | for every state: a finished reconcile is exact if and only if every account is recorded or wanted and, when the query is skipped, none is missing or outdated |
| UserReconcile.AccountsMatchSpec | controllers/mysqluser_controller.go:131-160 | in every run with any failures, as long as edits wait for a failed reconcile to be retried with success, a finished reconcile leaves exactly the spec's hosts with its password |
| UserReconcile.RepeatIsQuiet | controllers/mysqluser_controller.go:138-205 | the next reconcile is sure to write nothing if and only if the finished one had not lost the revision to the finalizer update; the accounts stay as they are in any case |
| UserReconcile.RemovalExactly | controllers/mysqluser_controller.go:107-244 | for every state and any number of failed attempts: no account is left if and only if all were on record |
| UserReconcile.RemovalLeavesNothing | controllers/mysqluser_controller.go:219-244 | after every settled run none is left once the finalizer is gone |
| UserReconcile.LossIsReachable | controllers/mysqluser_controller.go:188-215 | a run of answered calls that ends with a wanted account missing for good |
| UserReconcile.LeakIsReachable | controllers/mysqluser_controller.go:131-153 | a run of answered calls that ends with an account no reconcile and no removal drops |
| SqlEscape.Escape | internal/sql_runner.go:509-539 | the loop computes the escaping |
| SqlEscape.DecodeEscape | internal/sql_runner.go:509-539 | decoding the escaped bytes as a MySQL literal returns them, in either quotes |
| SqlEscape.EscapeIsClean | internal/sql_runner.go:509-539 | no bare quote, newline or NUL, no cut-off escape, and at most twice the length |
| SqlTemplate.GetUsersIdentification | internal/sql_runner.go:436-453 | template and arguments of all hosts in host order |
| SqlTemplate.PermissionsToQuery | internal/sql_runner.go:466-495 | one grant per permission and table, in order |
| SqlTemplate.ConcatenateQueries | internal/query.go:58-74 | the accumulated text and arguments, terminated |
| SqlTemplate.BuildUserManagementSQL | internal/sql_runner.go:389-411 | the atomic query, or an error without hosts |
| SqlTemplate.RenderConcat | internal/query.go:58-74 | rendering distributes over concatenation |
| SqlTemplate.PlaceholdersAgainstArguments | internal/sql_runner.go:389-495 | placeholders exceed arguments by exactly the question marks in the user's own strings, so the query renders if and only if there are none |
| SqlTemplate.RenderedQuery | internal/sql_runner.go:389-495 | there is a query exactly if there is a host, and rendered it is the newline-join of BEGIN, CREATE, ALTER, the GRANTs and COMMIT, each written down without templates |
| SqlTemplate.RenderAccounts | internal/sql_runner.go:436-453 | the accounts render in host order with user, host and password in place |
| SqlTemplate.RenderGrant | internal/sql_runner.go:466-506 | a GRANT renders to the escaped privileges joined by commas, the quoted database and table, the accounts, and the grant option exactly if it is asked for |
| SqlTemplate.IdIsQuoted | internal/sql_runner.go:497-506 | a quoted id is the pieces between its backticks, put together |
| SqlTemplate.PrivilegesAreListed | internal/sql_runner.go:474-482 | the privileges are escaped one by one and joined by a comma and a space |
| BufferPool.MysqlCluster.EnsureMysqlConf | mysqlcluster/mysqlcluster.go:424-504 | the resulting configuration, or the panic on zero log groups |
| BufferPool.ReadBack | mysqlcluster/mysqlcluster.go:510-533 | a size written as digits is read back |
| BufferPool.UnitsOfSize | mysqlcluster/mysqlcluster.go:510-533 | a number with a unit in either case is that many 2^10, 2^20 or 2^30 bytes, and any other letter is an error |
| BufferPool.PercentagesExactly | mysqlcluster/mysqlcluster.go:433-439 | the default and the largest size in whole bytes |
| BufferPool.InstancesExactly | mysqlcluster/mysqlcluster.go:452-452 | the largest number of whole gigabytes of the pool and begun processors, at least one |
| BufferPool.LogFileSizeExactly | mysqlcluster/mysqlcluster.go:480-486 | the log file size by bands of the pool size |
| BufferPool.OtherSettings | mysqlcluster/mysqlcluster.go:463-503 | what becomes of the log file size, the error log and every other key |
| BufferPool.FixedAfterTwo | mysqlcluster/mysqlcluster.go:424-459 | the pool size is fixed after two applications, and after one exactly if a size was configured or 128MiB fits |
| BufferPool.PoolBounds | mysqlcluster/mysqlcluster.go:438-459 | a configured size stays within its bounds; instances are at least one and fit the pool |
| BufferPool.AgreesWithReadOnly | mysqlcluster/syncer/readonly_statefulset.go:484-535 | both routines agree on pool and instances without a readable configured size |
| BufferPool.LogFilesAgree | mysqlcluster/syncer/readonly_statefulset.go:484-535 | both routines fail together on the log file size and agree on it if the volume has room |
| CronBackup.CronJob.Run | backup/cronbackup.go:48-71 | one tick: creation unless something is seen running, then garbage collection; equal creation times included |
| CronBackup.TickCreates | backup/cronbackup.go:48-71 | a needed tick that lists only completed backups, or cannot list, creates one new, incomplete recurrent backup, which stays exactly if the limit leaves room or its deletion is refused |
| CronBackup.TickCreatesNothing | backup/cronbackup.go:48-71 | a tick that is not needed or lists an incomplete backup of any cluster creates nothing |
| CronBackup.CronJob.BackupGC | backup/cronbackup.go:124-144 | deletes by position in some order the sort allows; with distinct times exactly the backups with at least limit newer ones |
| CronBackup.CronJob.ScheduledBackupsRunningCount | backup/cronbackup.go:73-94 | positive exactly when a successful list holds an incomplete backup of any kind |
| CronBackup.AtMostOneRunning | backup/cronbackup.go:48-94 | in every run at most one recurrent backup is incomplete and it is the newest |
| CronBackup.RunningAtMost | backup/cronbackup.go:48-94 | in every run there are at most one running recurrent backup and one more per failed list |
| CronBackup.RunningSurvives | backup/cronbackup.go:124-144 | a running backup survives a tick exactly when the limit has room for it beside a backup created by the tick, which takes a failed list |
| CronBackup.CollectedByRank | backup/cronbackup.go:124-144 | what is kept and what is deleted whatever the order of equal creation times |
| CronBackup.NewestRemain | backup/cronbackup.go:124-144 | exactly min(limit, n) remain and none of the deleted is newer, in every order the sort allows |
| CronBackup.TickKeepsInvExactly | backup/cronbackup.go:48-144 | for every limit and every refused deletion: exactly when a tick breaks the invariant |
| CronBackup.FailedListLosesRunning | backup/cronbackup.go:73-86 | with a limit of one a failed list costs the running backup |
| SpecConversion.ConvertToBeta | api/v1beta1/mysqlcluster_conversion.go:57-143 | the stepwise conversion equals the pure one, panics included |
| SpecConversion.ConvertToAlpha | api/v1beta1/mysqlcluster_conversion.go:145-209 | the stepwise conversion equals the pure one |
| SpecConversion.ConvertsExactly | api/v1beta1/mysqlcluster_conversion.go:57-143 | the conversion panics exactly on a size that cannot be parsed |
| SpecConversion.FieldsOfBeta | api/v1beta1/mysqlcluster_conversion.go:57-143 | where every field of v1alpha1 goes, those not read back included |
| SpecConversion.SourceOfBeta | api/v1beta1/mysqlcluster_conversion.go:103-131 | the data source under its conditions |
| SpecConversion.FieldsOfAlpha | api/v1beta1/mysqlcluster_conversion.go:145-209 | where every field of v1beta1 goes |
| SpecConversion.SourceOfAlpha | api/v1beta1/mysqlcluster_conversion.go:188-206 | the restore settings under their conditions |
| SpecConversion.RoundTripIsNormalForm | api/v1beta1/mysqlcluster_conversion.go:57-209 | a second round trip equals the first exactly when no size of the spec is zero, and panics otherwise |
| SpecConversion.RoundTripIsIdentity | api/v1beta1/mysqlcluster_conversion.go:57-209 | the exact specs that survive the round trip unchanged |
| SpecConversion.AddressIsNormal | api/v1beta1/mysqlcluster_conversion.go:116-131 | splitting and joining the NFS address is idempotent and keeps both parts |
| SpecConversion.AddressSurvives | api/v1beta1/mysqlcluster_conversion.go:116-131 | an address survives exactly when it has one colon |
| Naming.GetOrdinalInverts | utils/common.go:55-66 | an ordinal after a dash is read back whatever the prefix |
| Naming.NoDashNoOrdinal | utils/common.go:55-66 | a name without a dash has no ordinal |
| Naming.UpdatePvc | mysqlcluster/syncer/statefulset.go:491-528 | which claims are deleted, in order, also when a delete fails; none at zero replicas |
| Naming.PvcSelection | mysqlcluster/syncer/statefulset.go:505-524 | of the cluster's own claims exactly those at or above the replicas are selected |
| Naming.SurplusExactly | mysqlcluster/syncer/statefulset.go:505-524 | a claim is selected exactly if it is not being deleted and the number behind its last dash is out of range |
| Naming.CreatePeers | mysqlcluster/mysqlcluster.go:143-152 | the loop builds the comma-join of the peer list |
| Naming.BuildXenonPeers | mysqlcluster/syncer/xenon_cm.go:70-82 | the metadata peers are the expected peers |
| Naming.PeersAgree | mysqlcluster/mysqlcluster.go:143-159 | the start-up string splits into the expected list exactly for a positive count and comma-free names |
| Naming.PeerDistinct | mysqlcluster/syncer/status.go:586-592 | different ordinals have different addresses |
| Naming.ServerId | sidecar/config.go:310-343 | the stepwise computation of the server id |
| Naming.FirstServerIdExactly | sidecar/config.go:318-331 | where the ids start, by offset and remote cluster |
| Naming.ServerIdsOfCluster | sidecar/config.go:310-343 | the ids of regular and read-only pods in closed form |
| Naming.ServerIdsDistinct | sidecar/config.go:310-343 | all ids of a cluster are distinct exactly without read-only pods or with at most 100 replicas |

## Left out

- Kubernetes client calls, HTTP and exec executors, shell scripts, backup and S3 pipelines, container and volume builders: input/output or constant tables.
- Cluster conditions: the slots written on the Ready path do not keep their types, and nothing else reads them.
- Try-leader selection and automatic rebuild: they hold addresses of a loop variable and then only issue calls.
- MySQL grants against the spec: grants are added and never revoked.
- Backup status conversion, backup host choice, clearing of cron entries: known not to do what their names say, and easy to read off.
- Parsing and writing of ini files: a section is an ordered list of entries with distinct keys; sections with shadow keys or dots are not modelled.
- Floating-point rounding in the sizing routines: percentages are exact.
- Pause between poll attempts and wall-clock limits: a poll makes any number of attempts.
- Statement-level atomicity in MySQL: the management query takes effect as a whole or not at all.
- MergeBuilder.Patch.Set: a value that is itself such a mutable map, which would be shared by two owners, is not modelled; no caller passes one.
- MergePatch.BuiltIsApplied: values are null or opaque; a plain JSON object passed as a value would itself be merged by the API server.
- SpecConversion.ConvertToAlpha: structured values that are copied as a whole are opaque blobs.
