# A model of the propagation engine and the code around it

The backend keeps several derived tables equal to what a simple recursive definition would give, by incremental
recomputation of marked rows. This project models that code in Dafny and proves what it keeps: each SQL statement is a
step on finite maps, and the Go code around the statements supplies the loops, exit tests, chunks and recursion.

| file | models |
|---|---|
| `Permissions.dfy` | propagation of permissions over (group, item) pairs, with the triggers that mark pairs |
| `Ancestors.dfy` | the ancestor caches: a max-of-min closure over expiry times for groups, the plain closure for items |
| `Transitions.dfy`, `TransitionEffects.dfy` | the membership state machine: the rules table, its batch plan, and what each action is meant to do |
| `GroupRelations.dfy` | carrying out plans, and relations between groups: cycles, orphans, limits, runs of calls |
| `ResultAggregates.dfy`, `ResultPropagation.dfy` | the worklist over results: aggregates, one marking or recomputation step, termination, unlocking |
| `ResultRuns.dfy`, `PropagationLoss.dfy` | runs of that worklist as sequences of states, and exactly when every run reaches the fixpoint |
| `ResultStores.dfy` | the loops and the recursion of the Go code, tied to these runs |
| `SortingRules.dfy`, `Paging.dfy`, `Pages.dfy` | sort statements, the generated ORDER BY and paging condition under three-valued logic, and reading page by page |
| `SessionLock.dfy` | the per-session lock as steps of concurrent requests |
| `AttemptChain.dfy` | the join over a path of items against a walk back through attempts |
| `JsonConversion.dfy` | database rows to nested JSON |
| `Graph.dfy`, `Collections.dfy` | paths, acyclicity and depth in finite graphs; finite sets |

## Where the code differs from its comments

- **Results and chunks.** The comment on `propagate` (`app/database/result_store_propagate.go:48-76`) describes a loop that takes
  the pending results chunk by chunk until the marks are gone, and mentions cyclic graphs as its only hazard. But marking a
  parent for recomputation overwrites a pending propagation of that parent outside the chunk
  (`app/database/result_store_propagate.go:225-232`); when the recomputation then finds the parent unchanged, the parent is
  unmarked and its own parents stay stale. The exact condition is the absence of traps among the results that the marks can
  reach: a trap is a child, its parent and a grandparent, of which the child is no child itself, when at least a chunk (200) of
  those results are no children of the grandparent. `RunsReachFixpointExactlyWithoutTraps` proves both directions: without a trap
  every run ends with all chapters up to date and no parent result missing that can be created, whatever the chunks and the
  tables it starts from, as long as each stale chapter waits for its recomputation there and each missing result for its
  creation; with a trap some such run does not. A single run is
  fine whatever the traps when none of its passes forgets a result, which `ForgettingMeaning` states as a guard on the tables
  before the pass.
- **Expired relations and cycles.** A comment in `CreateRelation` says "do not allow cycles even via expired relations"
  (`app/database/group_group_store.go:47`). But recomputation drops expired ancestor rows, and a cycle through an expired relation
  blocks it, so that even a cycle of unexpired relations can be missed: `ExpiredRelationsCanHideCycles`. Acyclicity over runs is
  proved up to any time that all relations of the start outlive.
- **JSON keys.** The comment on `ConvertMapFromDBToJSON` (`app/service/conversion.go:21-26`) says that keys with "__" are paths.
  Keys of which one is a path prefix of another make the result depend on the iteration order of a Go map.
  `OrderMattersExactlyForValues` shows that this happens exactly when a value other than nil is among them.

## Assumptions

- The item graph has no cycle, and its ancestor table is exact where results and permissions are propagated.
- Each transaction is one step without interference; statements on sets are simultaneous.
- Times only move forward. `NOW()` is constant within a call.
- Columns compared by ORDER BY are modelled by their rank in their collation.

## Model

| member | source | states |
|---|---|---|
| `Permissions.PermissionStore.ComputeAllAccess` | app/database/permission_granted_store_compute_all_access.go:26-160 | From any marked state in which each outdated pair has a pending mark at or above it, the loop ends with an empty mark table and with generated permissions equal to the recursive definition over the item graph, for every (group, item); there each right is the highest level among those granted to the pair and those that each link passes on from the parent, spelled out by parent level and link setting, owners have the highest levels and are exactly those granted ownership; each pair is recomputed at most once, only pairs at or below an initial mark are, and all others keep their rows |
| `Permissions.PermissionStore.ExecuteStatements` | app/database/permission_granted_store_compute_all_access.go:137-158 | One transaction keeps the invariant of the run, never recomputes a pair twice, and reports no changes only when no mark is left |
| `Permissions.PermissionStore.constructor` | app/database/permission_granted_store_compute_all_access.go:26-28 | The empty tables meet what the recomputation relies on |
| `Permissions.PermissionStore.InsertGrant` | db/migrations/2501232006_rework_triggers_to_store_connection_id_for_sync_permissions_and_results_propagations.sql:52-62 | The insertion trigger marks the pair, which restores the precondition of the recomputation |
| `Permissions.PermissionStore.UpdateGrant` | db/migrations/2501232006_rework_triggers_to_store_connection_id_for_sync_permissions_and_results_propagations.sql:65-79 | The update trigger marks the pair only when a permission changes, and that suffices |
| `Permissions.PermissionStore.DeleteGrant` | db/migrations/2501232006_rework_triggers_to_store_connection_id_for_sync_permissions_and_results_propagations.sql:82-92 | The deletion trigger marks the pair, which restores the precondition of the recomputation |
| `Permissions.PermissionStore.InsertItemItem` | db/migrations/2411181747_modify_trigger_after_insert_items_items_to_recompute_parent_results.sql:4-8 | Marking the generated pairs of the parent with "children", without touching marks there are, covers everything below the new child |
| `Permissions.FixpointIsDefined` | app/database/permission_granted_store_compute_all_access.go:81-108 | A table that agrees everywhere with the local rule of the UPDATE is the recursive definition; the fixpoint is unique on an acyclic item graph |
| `Permissions.NothingMarkedIsDefined` | app/database/permission_granted_store_compute_all_access.go:123-159 | Once no mark is left, coverage alone implies the recursive definition |
| `Permissions.FixpointFollowsRules` | app/database/permission_granted_store_compute_all_access.go:81-108 | What the local rule gives: nothing is inherited from levels up to "info", "content" becomes nothing, "info" or "content", the levels above follow the setting for upper levels, the other rights pass up to their cap or not at all, and the level of a pair is the highest of all this, attained by a grant, a link or "none" |
| `Permissions.PropagatedIsPassed` | app/database/permission_granted_store_compute_all_access.go:86-100 | What one link passes on is exactly one level, for each right, parent level and link setting |
| `Permissions.MarkingKeepsCovered` | app/database/permission_granted_store_compute_all_access.go:30-48 | Marking the children of "children" pairs and dropping those marks leaves every outdated pair with a "self" mark at or above it |
| `Permissions.RecomputingKeepsCovered` | app/database/permission_granted_store_compute_all_access.go:57-128 | Pairs processed together are no relatives, so recomputing them from the old rows agrees with the new rows, and their children await theirs |
| `Permissions.SomePairIsProcessed` | app/database/permission_granted_store_compute_all_access.go:57-72 | While a "self" mark is left, some pair has no marked ancestor, so the round is not empty |
| `Permissions.ProcessingKeepsLeftBehind` | app/database/permission_granted_store_compute_all_access.go:57-72 | No mark left after a round can lead back to a pair processed in it or before: the reason why each pair is recomputed once |
| `Permissions.RoundKeepsInvariant` | app/database/permission_granted_store_compute_all_access.go:137-158 | All the parts together for one round, as used by the loop |
| `Permissions.NothingIsAmplified` | app/database/permission_granted_store_compute_all_access.go:81-108 | A generated level above the lowest was granted at that height or higher (or through ownership) to the same group on the item or on one of its ancestors |
| `Permissions.TopLevelsAreGivenDirectly` | app/database/permission_granted_store_compute_all_access.go:96-107 | Levels "with grant" and ownership are never inherited: a row of the pair itself gives them |
| `Permissions.DefinedIsMonotone` | app/database/permission_granted_store_compute_all_access.go:81-108 | Raising or adding grants lowers no generated permission of any pair |
| `Ancestors.NoParentInSameRound` | app/database/ancestors.go:54-74 | No round recomputes an object together with one of its parents |
| `Ancestors.SomeObjectIsProcessed` | app/database/ancestors.go:54-74 | On acyclic relations a round processes something as long as something is marked |
| `Ancestors.LeftoversAreBelowCycles` | app/database/ancestors.go:164-187 | When a round finds nothing to process, whatever is still marked lies on a cycle or below one |
| `Ancestors.NewRowMeaning` | app/database/ancestors.go:95-128 | The rows computed with MAX(LEAST(...)) are alive at any time t exactly when some parent relation and some row of the parent are both alive at t |
| `Ancestors.RecomputedRowIsExact` | app/database/ancestors.go:95-128 | A processed group gets rows alive at t exactly for the groups that reach it by relations alive at t |
| `Ancestors.UnmarkedRowsAreExact` | app/database/ancestors.go:22-34 | After the cached descendants of changed groups are marked, all other rows are exact for the new relations at every later time |
| `Ancestors.RoundKeepsUnmarkedExact` | app/database/ancestors.go:164-187 | Each round keeps all rows of unmarked groups exact |
| `Ancestors.NoSelfRowIsAdded` | app/database/ancestors.go:95-121 | The INSERT without IGNORE never produces a second self row |
| `Ancestors.GroupGraph.CreateNewAncestors` | app/database/ancestors.go:19-188 | The exact tables after the rounds, given round by round: each round takes the marked groups without marked parents until one finds none; what stays marked is on or below a cycle; on acyclic relations nothing stays marked and the cache is exact now and at every later time without recomputation |
| `Ancestors.RoundsAreDisjoint` | app/database/ancestors.go:54-74 | No object is recomputed by two rounds |
| `Ancestors.GroupGraph.Wait` | app/database/ancestors.go:121-125 | The passing of time needs no recomputation: rows exact for all later times stay so |
| `Ancestors.GroupGraph.PutRelations` | db/migrations/2410282314_modify_trigger_after_update_groups_groups_to_ignore_team_memberships.sql:4-55 | Inserting relations or changing their expiry marks exactly the changed children that count, which is what the recomputation relies on |
| `Ancestors.GroupGraph.DeleteRelations` | db/migrations/2410282327_modify_trigger_before_delete_groups_groups_to_ignore_team_memberships.sql:4-9 | Deleting relations marks their children, team memberships excepted |
| `Ancestors.GroupGraph.ChangeRelations` | app/database/group_group_store_transitions.go:427-445 | Deletions, insertions and a recomputation on demand keep an exact, acyclic cache exact; without recomputation it suffices that only team memberships changed |
| `Ancestors.GroupGraph.DeleteGroups` | app/database/group_group_store.go:175-177 | Deleting groups without relations loses no row that others need |
| `Ancestors.ExpiredRelationsCanHideCycles` | app/database/ancestors.go:121-125 | A concrete history: from an exact, acyclic cache without expired relations, one relation expires, four relations are created of which none is refused, and the last one closes a cycle of unexpired relations |
| `Ancestors.NotCachedNotReached` | app/database/group_group_store.go:43-53 | With an exact cache no cached row means no path of active relations, and no path at all as long as no relation has expired |
| `Ancestors.ItemGraph.CreateNewAncestors` | app/database/ancestors.go:129-187 | For items: the exact tables round by round, leftovers on or below cycles, and on an acyclic graph items_ancestors is exactly the transitive closure |
| `Ancestors.ItemGraph.ChangeLink` | app/database/ancestors.go:14-18 | Marking the child of a changed link is what the recomputation relies on |
| `Ancestors.UnmarkedItemsAreExact` | app/database/ancestors.go:22-34 | After the cached descendants of changed items are marked, all other items have exact rows |
| `Ancestors.ItemRoundKeepsExact` | app/database/ancestors.go:93-141 | Each round leaves exact rows for the processed items and all unmarked ones |
| `Transitions.BuildTransitionsPlan` | app/database/group_group_store_transitions.go:656-729 | For any list of children, duplicates included, the plan holds for each listed child what the rules decide for it and nothing for anybody else; TransitionEffects.TableIsMeant says what the rules decide |
| `Transitions.PlanningAChildAgain` | app/database/group_group_store_transitions.go:656-729 | A child listed twice is planned once |
| `Transitions.MovesFollowTable` | app/database/group_group_store_transitions.go:151-282 | Every move the decision makes is in the rules table, or is the downgrade of one that adds a membership |
| `Transitions.DecisionMeaning` | app/database/group_group_store_transitions.go:656-696 | When a move is refused, downgraded or kept, in terms of the table and of the approvals missing |
| `Transitions.MoveSettles` | app/database/group_group_store_transitions.go:698-729 | Executing the five sets for a child and reading its state back from the tables gives the state its target stands for |
| `Transitions.UncheckedActionsTakeNoPlace` | app/database/group_group_store_transitions.go:518-554 | Actions that skip the size check never turn somebody without a place into a member or an invited one |
| `Transitions.CheckedActionsCountPlaces` | app/database/group_group_store_transitions.go:518-554 | For the checked actions, counting active targets and new invitations counts places |
| `TransitionEffects.TableIsMeant` | app/database/group_group_store_transitions.go:151-282 | For each action, state and approvals: exactly from which states the action is valid, when approvals are missing and which, the state it leads to (no relation and no request after refusing, withdrawing, cancelling a join request, removing, leaving and accepting a leave request; membership after joining and accepting and after leave requests that are refused or cancelled), and the entry it leaves in the journal |
| `TransitionEffects.OnlyTheseBringIn` | app/database/group_group_store_transitions.go:151-282 | Only joining, accepting and inviting somebody who asked to join make a member of somebody who is none |
| `TransitionEffects.LimitIsCheckedForNewPlaces` | app/database/group_group_store_transitions.go:518-554 | The size limit is checked for exactly the actions that can give a place to somebody without one, and for join requests |
| `GroupRelations.GroupStore.Transition` | app/database/group_group_store_transitions.go:363-456 | Results, asked approvals, tables and journal after a call: each listed child gets the answer that the action, its state and the approvals call for, and ends in the state the action is for, with the approvals given stored in a new request, or stays as it is; no other pair changes, the journal gets exactly the entries of the children that succeed, the batch is refused as full exactly when the limit leaves no room for it, no member keeps a pending invitation or request, new relations never expire, the relations (expired ones included) stay acyclic exactly when the parent is a team or no joining child reaches it, the cache of a settled graph stays exact as long as they do, and no joining child reaches the parent through active relations |
| `GroupRelations.GroupStore.ExecutePlan` | app/database/group_group_store_transitions.go:433-445 | The statements leave the tables the plan describes, and the cache exact as long as the relations are acyclic |
| `GroupRelations.AfterCycleCheck` | app/database/group_group_store_transitions.go:622-640 | The cycle check takes exactly the cached relatives out of all five sets |
| `GroupRelations.AfterSizeCheck` | app/database/group_group_store_transitions.go:518-554 | A batch over the limit is taken out of all five sets, every child of it answered with "full" |
| `GroupRelations.JournalFits` | app/database/group_group_store_transitions.go:602-620 | The journal gets one row for each changed child with a non-empty target |
| `GroupRelations.CarryingOutThePlan` | app/database/group_group_store_transitions.go:433-445 | From plan to tables: succeeding children settle, all other pairs keep their rows |
| `GroupRelations.AnswersAreMeant` | app/database/group_group_store_transitions.go:363-456 | The answer for a child and the state it ends in are those the action is meant for: invalid, approvals missing, unchanged, cycle, full or success |
| `GroupRelations.JournalIsMeant` | app/database/group_group_store_transitions.go:602-620 | The journal entries are those the actions are meant to leave, one for each child that succeeds, unless the move leaves none |
| `GroupRelations.CarriedOutKeepsNoConflict` | app/database/group_group_store_transitions.go:151-282 | No rule leaves an active member with a pending invitation or join request |
| `GroupRelations.CountIsExact` | app/database/group_group_store_transitions.go:518-554 | The count of the size check, over tables not yet changed, is the number of members and invited ones after the call |
| `GroupRelations.PlanCounts` | app/database/group_group_store_transitions.go:518-554 | The ids in the plan that the size check counts are the children that the rules would move, and those that would move in |
| `GroupRelations.RefusalMeaning` | app/database/group_group_store_transitions.go:518-554 | A batch is refused as full if and only if the group has a limit, the action is checked, some child would move, and carrying the batch out would leave more members and invitations than allowed (or just as many, for a join request) |
| `GroupRelations.CapacityIsKept` | app/database/group_group_store_transitions.go:518-554 | No call raises members plus invitations above the limit, unchecked actions included |
| `GroupRelations.NewMembershipsMakeNoCycle` | app/database/group_group_store_transitions.go:622-640 | Many children added under one parent at once make a cycle exactly when one of them alone would, that is reaches the parent, and the parent is no team |
| `GroupRelations.JoiningDoNotReach` | app/database/group_group_store_transitions.go:622-640 | The check against the old cache alone lets no child in that reaches the parent through active relations, and none that closes a cycle as long as no relation has expired |
| `GroupRelations.NewLinkMakesNoCycle` | app/database/group_group_store.go:39-64 | A new relation makes a cycle exactly when it counts for ancestors and the child reaches the parent |
| `GroupRelations.GroupStore.CreateRelation` | app/database/group_group_store.go:39-72 | Refused exactly when a row, expired or not, says the child is an ancestor of the parent; otherwise the relation replaces the old one and the pending request goes; with an exact cache every child that reaches the parent through active relations is refused, and otherwise only one with an expired row; what is let through makes a cycle exactly when it counts and the child reaches the parent through expired relations |
| `GroupRelations.GroupStore.DeleteRelation` | app/database/group_group_store.go:90-122 | Deletes the relation, or the child with exactly its orphaned descendants when the parent was its last active one and orphans are to go; the cache stays exact, expired relations or not |
| `GroupRelations.OtherParentMeaning` | app/database/group_group_store.go:94-98 | The existence test is that of another group of which the child is an active member |
| `GroupRelations.GroupStore.DeleteGroupAndOrphanedDescendants` | app/database/group_group_store.go:124-182 | Deletes the group and exactly those of its active descendants that are left with active ancestors among them only, with all their relations; every other descendant keeps an active parent; expired relations do not matter |
| `GroupRelations.GroupStore.DeleteObjectsLinkedToGroups` | app/database/group_group_store.go:184-196 | All relations from and to the groups go, and an exact cache stays exact |
| `GroupRelations.GroupStore.DeleteGroupRows` | app/database/group_group_store.go:175-177 | The groups go with their cascades, and an exact cache stays exact |
| `GroupRelations.CandidatesAreDescendants` | app/database/group_group_store.go:127-134 | The candidates read from the cache are the groups below through active relations, by type |
| `GroupRelations.OrphanTestIsExact` | app/database/group_group_store.go:144-166 | With an exact cache, expired relations or not, the ancestor test of the query is the graph definition: an orphan is a candidate with candidates as its only active ancestors, the largest set of candidates closed under active parents; whoever is spared keeps a surviving active parent |
| `GroupRelations.SparedKeepParents` | app/database/group_group_store.go:144-177 | Every spared descendant keeps a direct active parent that is not deleted |
| `GroupRelations.GroupStore.Perform` | app/database/group_group_store.go:39-122 | Each single call does to the tables what its own contract says, deletions with orphans included, time passes, and all keep what Run states |
| `GroupRelations.GroupStore.Run` | app/database/group_group_store_transitions.go:363-456 | Any run of CreateRelation, DeleteRelation, Transition and waiting up to a horizon: if every relation of the start outlives the horizon, the graph stays acyclic and the cache exact; nobody is ever a member with a pending invitation or request; a limited group of users and teams never exceeds its limit |
| `ResultAggregates.RecomputedDependsOnChildren` | app/database/result_store_propagate.go:315-384 | The aggregate of a result depends on its own row and on the results that count for it only |
| `ResultAggregates.RecomputingMakesAgree` | app/database/result_store_propagate.go:315-384 | A recomputed result agrees with its children as long as they stay as they are |
| `ResultAggregates.ChildValidationMeaning` | app/database/result_store_propagate.go:334-352 | A child item counts as validated since the earliest validation among the attempts that count |
| `ResultAggregates.StatsMeaning` | app/database/result_store_propagate.go:315-358 | What the sums over the child items count: validated and open ones, by category, and the latest validation times |
| `ResultAggregates.ValidationRules` | app/database/result_store_propagate.go:366-377 | For each validation type, exactly when a result is validated and since when, in terms of its scored child items |
| `ResultAggregates.RecomputedMeaning` | app/database/result_store_propagate.go:315-384 | The numbers of a recomputed row: tries and helped tasks are sums over the scored child items of the best of the results that count, the activity is the latest of theirs and its own, and the score follows the rules: a set score stays, a difference is added to the weighted average, everything is cut off at 0 and 100 |
| `ResultAggregates.ValidationComesFromALeaf` | app/database/result_store_propagate.go:366-377 | When all results of chapters agree with their children, the validation time of any chapter is that of a result of a childless item reached from child to child |
| `ResultAggregates.AverageNeedsNoClamp` | app/database/result_store_propagate.go:378-384 | With weights that are not negative and scores of childless items within 0..100, clamping the average changes nothing, since stored scores of chapters are in range already |
| `ResultPropagation.ParentsAndChildren` | app/database/result_store_propagate.go:160-175 | Marking parents and counting children are two sides of one relation, for results within the root item of their attempt |
| `ResultPropagation.ToMarkMeaning` | app/database/result_store_propagate.go:158-222 | The query for results to mark finds exactly the results that may be marked and have a propagating child |
| `ResultPropagation.ParentsAreMarked` | app/database/result_store_propagate.go:158-233 | Every parent of a propagating result is marked, and created if it does not exist and the participant sees the chapter, which asks for no explicit entry |
| `ResultPropagation.OnlyParentsAreMarked` | app/database/result_store_propagate.go:158-222 | Nothing but such parents is marked or created |
| `ResultPropagation.ForgettingMeaning` | app/database/result_store_propagate.go:158-233 | A result awaits its recomputation, or a missing one its creation, before a pass and not after it if and only if, in the tables before the pass, it is unmarked, pending propagations of its children are all it waits for, and all of these are overwritten because they have propagating children of their own |
| `ResultPropagation.MarkingIsSafeExactlyWhenNothingIsLost` | app/database/result_store_propagate.go:225-232 | A pass keeps every possible set of stale results awaiting their recomputation if and only if it forgets no result, and every possible set of missing results awaiting their creation if and only if it forgets no missing one |
| `ResultPropagation.MarkingKeepsCovered` | app/database/result_store_propagate.go:158-233 | When nothing is lost, every stale chapter still awaits its recomputation after the step, created results included |
| `ResultPropagation.RecomputingKeepsCovered` | app/database/result_store_propagate.go:271-405 | Recomputing a chunk of results without marked children leaves every stale chapter awaiting its own |
| `ResultPropagation.MarkingKeepsMissingAwaited` | app/database/result_store_propagate.go:158-233 | When nothing is left out, every missing parent result that can be created still awaits its creation after the pass, parents of created results included |
| `ResultPropagation.RecomputingKeepsMissingAwaited` | app/database/result_store_propagate.go:271-405 | Recomputing a chunk leaves every missing parent result awaiting its creation |
| `ResultPropagation.RecomputingIsDone` | app/database/result_store_propagate.go:271-405 | After a chunk each of its results agrees with its children and is pending exactly if its row changed or is new; no other row and no other mark changes |
| `ResultPropagation.SomeResultIsEligible` | app/database/result_store_propagate.go:271-303 | While a result is marked for recomputation, there is one none of whose children is, and it is taken |
| `ResultPropagation.MarkingDrops` | app/database/result_store_propagate.go:158-233 | In the marks ranked by depth, marking parents lowers the topmost rank it touches, even where it overwrites pending marks |
| `ResultPropagation.RecomputingDrops` | app/database/result_store_propagate.go:395-405 | Turning recomputed results into pending propagations lowers the marks likewise |
| `ResultPropagation.WeightDrops` | app/database/result_store_propagate.go:88-113 | Fewer marks of one rank and the same above make a smaller number, whatever happens below: the termination measure of both loops |
| `ResultPropagation.WithoutTrapsNothingIsLost` | app/database/result_store_propagate.go:158-233 | Whichever chunk is taken, a pass loses nothing unless the results that the marks can reach hold a trap: a child, its parent, and a grandparent, together with at least a chunk of results that are no children of the grandparent |
| `ResultPropagation.FewPendingLoseNothing` | app/database/result_store_propagate.go:158-160 | A chunk of all pending propagations loses nothing, so at most one chunk of them is always safe |
| `ResultPropagation.UnrelatedPendingLoseNothing` | app/database/result_store_propagate.go:158-233 | No chunk loses anything when no pending result is a parent of another pending one |
| `ResultPropagation.FewResultsHaveNoTrap` | app/database/result_store_propagate.go:10-15 | No more results than a chunk holds make no trap |
| `ResultRuns.StepKeepsProper` | app/database/result_store_propagate.go:79-130 | Every transaction keeps foreign keys, the states of marks, and the rows of results of childless items |
| `ResultRuns.RunsReachFixpoint` | app/database/result_store_propagate.go:79-130 | A complete run none of whose passes loses anything ends with every chapter equal to the aggregate of its children |
| `ResultRuns.RunsCreateMissing` | app/database/result_store_propagate.go:79-130 | A complete run none of whose passes leaves anything out ends with every parent result there should be |
| `ResultRuns.WithoutTrapsEveryRunReachesFixpoint` | app/database/result_store_propagate.go:79-130 | Without a trap among the results that the marks can reach, every run reaches the fixpoint and creates every missing parent result, whatever the rows, the marks and the chunks are |
| `ResultRuns.NoPairIsUnlockedTwice` | app/database/result_store_propagate.go:437-492 | No two passes of a run unlock the same item for the same participant |
| `PropagationLoss.TrapsLosePropagations` | app/database/result_store_propagate.go:158-233 | The converse: wherever there is a trap, some rows, marks and chunks make a run end without marks and with a stale chapter |
| `PropagationLoss.RunsReachFixpointExactlyWithoutTraps` | app/database/result_store_propagate.go:79-130 | Every run reaches the fixpoint, with all parent results created, if and only if there is no trap |
| `PropagationLoss.ChainsAreTraps` | app/database/result_store_propagate.go:10-15 | Three items in a chain are a trap exactly when there are more possible results than a chunk holds |
| `ResultPropagation.UnlockingShrinksLocked` | app/database/result_store_propagate.go:437-492 | Unlocked pairs leave the set of pairs that can be unlocked, and only they do |
| `ResultPropagation.UnlockingMeaning` | app/database/result_store_propagate.go:437-492 | Participants with a propagating result that has the score a dependency asks for have access to the dependent item afterwards, in the way the item asks for; all other rows stay, and the unlocked pairs are exactly those whose row changed |
| `ResultStores.ResultStore.MarkAsPropagatingSome` | app/database/result_store_propagate.go:132-243 | Takes as many pending propagations as the chunk allows; every parent of a taken result that exists or can be created is there afterwards and marked, new rows are empty, and nothing else is created, marked or changed |
| `ResultStores.ResultStore.UnlockDependedItems` | app/database/result_store_propagate.go:416-507 | Gives access to what the propagating results have earned and to nothing else, counts the pairs whose row changed, collects the items of one participant, and removes the chunk |
| `ResultStores.ResultStore.RecomputeMarked` | app/database/result_store_propagate.go:245-414 | The chunked loop ends with nothing marked for recomputation, keeps stale results and missing parent results awaited, changes chapters only and makes the marks lighter |
| `ResultStores.ResultStore.RecomputeChunk` | app/database/result_store_propagate.go:254-404 | The exact rows and marks after one chunk: its results agree with their children, changed ones are pending, the others unmarked; and what the step keeps |
| `ResultStores.ResultStore.MarkAndUnlock` | app/database/result_store_propagate.go:88-104 | One pass extends the run by the chunk it took, keeps stale results and missing parent results awaited unless this pass forgets one, and makes the marks lighter |
| `ResultStores.ResultStore.PropagateMarked` | app/database/result_store_propagate.go:86-113 | The outer loop is a complete run from the old tables to the new ones and ends with an empty mark table; every chapter equals the aggregate of its children, and every parent result that can be created exists, if no pass of that run loses anything, and whenever the marks start among results without a trap; exactly the pairs unlocked in the run are counted and collected |
| `ResultStores.ResultStore.Propagate` | app/database/result_store_propagate.go:79-130 | With the recursion after unlocking: it ends, the tables are those after a chain of complete runs, as many as unlock something and one more, at most one more than there are locked pairs; marks are empty; all chapters agree and no parent result is missing that can be created with the visibility at the end, if no run loses anything and whenever the results of the start lie among results without a trap; the returned items are exactly those the runs unlock for the participant, and results of childless items stay as they are |
| `ResultStores.NoPairIsUnlockedByTwoRuns` | app/database/result_store_propagate.go:113-130 | No two runs of the chain unlock the same item for the same participant |
| `ResultStores.ChainCreatesMissing` | app/database/result_store_propagate.go:79-130 | Over the chain of runs, with access growing in between, no parent result that can be created is missing at the end |
| `ResultStores.SmallWorldsAreSafe` | app/database/result_store_propagate.go:10-15 | In particular when a chunk can hold every result there can be |
| `SortingRules.SplitThenJoin` | app/service/sorting.go:147-150 | Splitting at commas loses nothing |
| `SortingRules.ParseThenRender` | app/service/sorting.go:209-229 | Every statement is what its field, direction and placement are written as |
| `SortingRules.RenderThenParse` | app/service/sorting.go:209-229 | A field with a direction and a placement reads back exactly when its name does not start or end like a sign it does not carry |
| `SortingRules.ParseSortingRules` | app/service/sorting.go:144-172 | Either the error of the first wrong statement, or the statements in their order followed by the missing tie-breakers in byte-wise order, with NULLs first where nothing else is said; nothing is used twice |
| `SortingRules.TieBreakersToAdd` | app/service/sorting.go:162-170 | The tie-breakers no statement names, strictly sorted |
| `SortingRules.SortedListsAreEqual` | app/service/sorting.go:162-170 | Sorting makes the result independent of the iteration order of the map |
| `Paging.ApplyOrder` | app/service/sorting.go:232-245 | The ORDER BY is the concatenation of the keys of the fields |
| `Paging.OrderMeaning` | app/service/sorting.go:52-72 | The generated ORDER BY, with NULL as the lowest value, puts a row after another exactly when the first differing field says so, NULLs at their place |
| `Paging.StatementMeaning` | app/service/sorting.go:209-229 | For each statement of accepted rules: "-" turns the order round, and the NULLs of a nullable field come first in either direction unless the statement ends in "$" |
| `Paging.ConstructPagingConditions` | app/service/sorting.go:341-384 | The conditions, the values for their placeholders and the column names, in which exactly the characters other than letters, digits and underscores are replaced by underscores |
| `Paging.FieldMeaning` | app/service/sorting.go:361-370 | The condition on one field, NULLs on either side included, is true exactly for what comes after |
| `Paging.SubQueryPagingIsExact` | app/service/sorting.go:341-384 | With a from-row: the generated condition is SQL-true of a row exactly when the generated ORDER BY puts the row strictly after the from-row |
| `Paging.ValuePagingIsExact` | app/service/sorting.go:371-381 | With values: as many as placeholders, each meets its own field, and the condition is true exactly for the rows strictly after |
| `Paging.CountPlaceholders` | app/service/sorting.go:371-381 | The number of values is the number of placeholders |
| `Pages.ApplyPagingConditions` | app/service/sorting.go:316-339 | Selects the rows strictly after the row with the given values or of the given sub-query, everything from the first row on request, nothing when no such row exists; the query fails exactly when a sub-query built from values has two columns of one safe name |
| `Pages.JoinSubQueryForPaging` | app/service/sorting.go:386-407 | The from-row holds the columns of the only row with the given tie-breaker values |
| `Pages.RowsAreOrdered` | app/service/sorting.go:144-172 | Unique tie-breakers make the generated order total |
| `Pages.ListingExists` | app/service/sorting.go:232-245 | So every table can be listed |
| `Pages.ListingsAreEqual` | app/service/sorting.go:232-245 | And in one way only |
| `Pages.FollowingIsRest` | app/service/sorting.go:316-339 | What follows a row of the listing is the rest of the listing |
| `Pages.ReadPages` | app/service/sorting.go:106-127 | A client that reads page after page with the generated conditions, each time from the tie-breaker values of the last row, gets the sorted list without gap or repetition, in full pages but for the last, whatever the rules and the page size |
| `SessionLock.StepsKeepLock` | app/api/auth/refresh_access_token.go:20-36 | Every step keeps the map equal to the set of lock holders |
| `SessionLock.StepsKeepWaitersSafe` | app/api/auth/refresh_access_token.go:20-36 | Every step, cancellation included, keeps each awaited channel closed or owned by a request that has yet to close it |
| `SessionLock.StepsKeepTokens` | app/api/auth/refresh_access_token.go:90-131 | Every step keeps the stored refresh token equal to the accepted one, except between exchange and commit and after a loss |
| `SessionLock.RunsKeepInvariant` | app/api/auth/refresh_access_token.go:20-36 | All three hold in every state of every interleaving |
| `SessionLock.MutualExclusion` | app/api/auth/refresh_access_token.go:64-75 | At most one request of a session runs the guarded function |
| `SessionLock.DeleteRemovesOwnEntry` | app/api/auth/refresh_access_token.go:33-33 | The deferred Delete removes the own entry and nothing else |
| `SessionLock.NoLostWakeUp` | app/api/auth/refresh_access_token.go:24-32 | A waiting request can wake up, or the owner of its channel is of the same session, does not wait and has yet to close it |
| `SessionLock.NoDeadlock` | app/api/auth/refresh_access_token.go:20-36 | While a request is not finished, some request of its session can take a step other than cancelling |
| `SessionLock.ExchangesPresentAcceptedToken` | app/api/auth/refresh_access_token.go:90-131 | Every exchange presents the refresh token the login module accepts, unless an earlier new one got lost |
| `SessionLock.OnlyLossesGetOutOfStep` | app/api/auth/refresh_access_token.go:109-128 | A session gets out of step only when the answer of a rotating exchange or the commit after it fails |
| `SessionLock.WithoutLossesTokensAreAccepted` | app/api/auth/refresh_access_token.go:90-131 | In every run, an exchange that comes before any lost answer and any failed commit of its session presents the accepted refresh token |
| `SessionLock.AnswersMeaning` | app/api/auth/refresh_access_token.go:53-85 | A request is answered the most recent token it read if that is another one than it came with or too new to refresh; otherwise the only token it is ever answered is one that it stored itself, together with its refresh token, as the most recent |
| `SessionLock.MostRecentMeaning` | app/api/auth/refresh_access_token.go:109-128 | The most recent token of a session changes only by a request of the session that stores its new one |
| `SessionLock.RunsEnd` | app/api/auth/refresh_access_token.go:24-32 | n requests take at most n(2n + 7) steps in any interleaving: the retry loop cannot go on for ever |
| `AttemptChain.ItemAttemptChainWithoutAttemptForTail` | app/database/item_store.go:91-145 | The joins and conditions built in the loop hold of a vector of attempts exactly when the path is open and each attempt is started and continues the one before |
| `AttemptChain.JoinIsWalkBack` | app/database/item_store.go:113-137 | A vector meets the join exactly when it is the one found by walking back from its last attempt: it exists if the walk succeeds, and is unique |
| `AttemptChain.HierarchyIsWalkBack` | app/database/item_store.go:113-137 | The walk back in terms of the attempts: each result is started, and each attempt is the one before, or was started at this very item with the one before as its parent |
| `AttemptChain.ParentHierarchyIsWalk` | app/database/item_store.go:75-89 | The same from a parent attempt at the last item but one |
| `AttemptChain.PathItemsDiffer` | app/database/item_store.go:120-123 | The items of a path differ because the item graph has no cycle |
| `AttemptChain.MapsDescribe` | app/database/item_store.go:238-251 | So the per-item maps describe the vector item by item, nothing being overwritten |
| `AttemptChain.ResultsForBreadcrumbsHierarchy` | app/database/item_store.go:238-251 | The two maps filled in the loop |
| `AttemptChain.BreadcrumbsHierarchyForAttempt` | app/database/item_store.go:190-210 | Finds a hierarchy exactly when the path is open and there is a vector of started attempts ending in the given one, each the same as the one before or started at its item with the one before as parent; returns the maps of that only vector |
| `AttemptChain.ParticipationHierarchyForParentAttempt` | app/database/item_store.go:75-89 | Selects the vectors of started attempts down to the parent attempt that are linked by the attempts' roots and parents, of which there is at most one |
| `AttemptChain.IsValidParticipationHierarchyForParentAttempt` | app/database/item_store.go:50-62 | True exactly for open paths with such a vector of active attempts down to the parent attempt (parent attempt zero for one item) |
| `AttemptChain.BreadcrumbsHierarchyForParentAttempt` | app/database/item_store.go:158-179 | The same with the maps of all items but the last |
| `JsonConversion.SplitThenJoin` | app/service/conversion.go:32-32 | Joining the path of a key gives the key back |
| `JsonConversion.PathIsUnique` | app/service/conversion.go:32-32 | The path of a key is the only one that joins to the key such that no part holds the separator and none but the last ends in an underscore, that is cut from the left |
| `JsonConversion.ValueMeaning` | app/service/conversion.go:72-92 | Only nil becomes nil, numbers become decimal texts that read back as the number, and under the names of times ("at", or ending in "_at", "_date", "_since" or "_until") a text is formatted as a time or the conversion panics |
| `JsonConversion.InsertMeaning` | app/service/conversion.go:33-49 | Storing a value at a path wipes out exactly the leaves at prefixes and extensions of the path |
| `JsonConversion.BuildMeaning` | app/service/conversion.go:28-50 | After all insertions the tree holds exactly the values with which no later path was in conflict |
| `JsonConversion.PrefixFreeMeaning` | app/service/conversion.go:27-50 | When no path is a prefix of another, every value is at its path and nothing else is there, whatever the order |
| `JsonConversion.LeavesDetermine` | app/service/conversion.go:28-50 | A tree without empty maps is determined by its leaves |
| `JsonConversion.OrderMattersExactlyForValues` | app/service/conversion.go:27-54 | The result is the same for every iteration order if and only if only nils are in conflict; in particular when no path is a prefix of another |
| `JsonConversion.ReplaceEmptySubMapsWithNils` | app/service/conversion.go:56-70 | The in-place pass leaves the collapsed fields and tells whether all of them are nil |
| `JsonConversion.CollapsesToNil` | app/service/conversion.go:56-70 | A map becomes nil exactly when all leaves under it are nil |
| `JsonConversion.SubMapMeaning` | app/service/conversion.go:56-70 | At any depth: a sub-map is nil, or gone within one, exactly when all leaves under it are nil, and collapsed otherwise |
| `JsonConversion.FinishKeepsValues` | app/service/conversion.go:56-70 | Values other than nil stay where they are and none appears |
| `JsonConversion.ConvertMapFromDBToJSON` | app/service/conversion.go:27-79 | Panics exactly when some value under a time name is no time; otherwise the values are those of the paths, cut from the left, that join to a key of the row, and the finished tree is built from them in the order of iteration; it holds exactly the values other than nil, each at its path, unless such a value is in conflict with another |

## Left out

- HTTP handlers, query building, prepared statements, logging, hooks, scheduling of asynchronous propagations: plumbing.
- Row locks, isolation levels, retries and the named lock of the results propagation: every transaction is atomic.
- ResultStores.ResultStore.ComputeAllAccess: stands for the whole recomputation of permissions within a results run; its effect is any growth of visibility, with marks on the existing results of children of newly visible items (db/migrations/2501232006_rework_triggers_to_store_connection_id_for_sync_permissions_and_results_propagations.sql:3-49) and on any other existing results, because the mapping from permissions to visibility is not modelled there.
- ResultStores.ResultStore.UnlockDependedItems: does not model latest_update_at of the granted row; it counts pairs, where the database counts an updated row twice, but the code asks only whether there are any.
- PropagationLoss.TrapsLosePropagations: claims that a run loses a propagation for some rows, not for every start with a trap; for one given run `ForgettingMeaning` decides.
- ResultStores.ResultStore.Propagate: does not claim that every changed result passes through unlocking, because a propagating result can be overwritten with to_be_recomputed.
- GroupRelations.GroupStore.Transition: approval and journal times, the acting user, and the personal approvals stored on a renewed relation are not modelled; the required approvals of a group are a snapshot, without the date until which locking needs approval.
- GroupRelations.GroupStore.ExecutePlan: the statements on pending requests and on the journal come before those on relations; the tables are independent.
- GroupRelations.GroupStore.DeleteRelation: does not model the permissions and filters removed with a membership.
- GroupRelations.GroupStore.DeleteObjectsLinkedToGroups: does not model the filters and permissions deleted along with the relations.
- GroupRelations.GroupStore.DeleteGroupRows: of the cascades only those to relations, ancestors, marks and pending requests are modelled; journal rows of deleted groups are kept.
- GroupRelations.GroupStore.Run: claims nothing about cycles once a relation of the start has expired, see above.
- Ancestors.GroupGraph.PutRelations: the marks that the triggers put on results are not modelled here; the propagation of results starts from any marks.
- Permissions.PermissionStore.InsertItemItem: does not model the marks that the same trigger puts on results. The trigger before the deletion of a link is not modelled; it marks the parent, from which the removed child is not reached any more.
- setResultsPropagationFromTableResultsRecomputeForItems: it only feeds marks, which may be any.
- Aggregates use exact reals: the rounding of averages by the database is not modelled.
- SessionLock: temporary users, expired tokens, and several processes, for which the lock is not made.
- Paging: the parsing of from.* values into typed values.
- AttemptChain.ResultsForBreadcrumbsHierarchy: the number of an attempt among its siblings is given, not computed from start times.
- AttemptChain: write locks, and how root items follow from group ancestors and managers.
- JsonConversion.ConvertMapFromDBToJSON: nested maps are values, so aliasing of Go maps is not modelled; parsing and formatting of a time is a parameter.
- Additional time of contests, enumerations, cookies, token payloads, badges and help requests: separate or simple members.
