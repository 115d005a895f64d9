# Column live view

A column live view keeps the rows of a topic in memory, answers queries over them, and keeps the answers of
subscribed queries up to date on their clients. This project models that engine and the client that follows it, and
proves that its fast, stateful forms do what a simple specification says: a query filters the rows, sorts them with
ties broken by key, and slices a window, or it groups them, aggregates, sorts and slices.

The model has four layers, and beside them a dictionary of what a query means.

- **Meaning.** What the specification functions compute is itself proved against plain statements: when one value is
  smaller than another (`ValueMeaning`), when a row meets an operator of a clause (`ClauseMeaning`), what rows a raw
  query shows in which order (`QueryMeaning`), what an aggregate of values is (`AggregateMeaning`), and what groups
  a grouped query shows (`GroupedMeaning`).
- **Storage and scans.** Rows lie in dense slots with swap-with-last deletion, mirrored in columns, sorted slot
  indexes and equality buckets (`RowStorage`, `OrderedIndex`, `OrderedWindow`, `CandidateIndex`, `NumberColumn`).
  A scan picks one of several access paths (`WindowScanner`, `BoundedWindow`).
- **Live answers.** A shared window of a raw query follows the change journal and falls back to a rescan
  (`ChangeJournal`, `RetainedWindow`, `ActiveRawQuery`); a grouped query follows it with reversible aggregates,
  deferred minimums and maximums and an order-neutral patch (`GroupedAggregates` to `GroupedExecution`). Queries that
  share an execution are found by the canonical texts they are cached under (`JsonText`, `QueryValueText`,
  `QueryCacheKeys`, `QueryClauses`, `GroupedCacheKeys`), and groups by theirs (`GroupKeys`).
- **Leases.** Executions of both kinds are counted by their leases and hold the journal as long as they need it
  (`Registry`, `TopicStore`).
- **Clients.** Subscriptions tell deltas through a bounded queue (`QueryDelta`, `LiveEvents`, `EventQueue`,
  `LiveSubscription`), a remote subscription relays them through a second one, and the client replays them
  (`RemoteSubscription`, `ClientState`, `RemoteClient`). `LiveSystem` puts a store, any number of connections and
  their clients together: every step of any of them keeps one invariant, and the end-to-end result follows from it.

Classes stand for what changes in place: the row storage, the journal, the bounded group heap, the number column, the
queues, the subscriptions, the store, the health ledger and the system. What is computed is a function or a method
proved against one. `dafny verify dfyconfig.toml` checks the whole project.

## Model

| member | source | states |
|---|---|---|
| Values.CompareQueryValueTransitive | packages/column-live-view-engine/src/query-value.ts:115-173 | Comparing values is transitive across all kinds of value, ranks and ties included; which of two values is the smaller is the next row. |
| ValueMeaning.CompareQueryValueMeans | packages/column-live-view-engine/src/query-value.ts:115-173 | A value compares below another if and only if it is the smaller number, bigint or decimal of the same kind, false against true, the text that is a proper prefix or has the smaller first differing character, or a value of an earlier kind: null, undefined, booleans, decimals, bigints, numbers and texts in turn. Only equal values tie. |
| ValueMeaning.KindsCompareLikeTexts | packages/column-live-view-engine/src/query-value.ts:150-173 | Two values of different kinds within one rank compare as their canonical texts do, so the places the kinds are given are those the texts give them. |
| Rows.CompiledOrderIsRowOrder | packages/column-live-view-engine/src/raw-query-plan.ts:160-172 | Comparing rows column by column, each in its direction, and then by key is a strict total order: only an entry ties with itself; what a column decides is the next row. |
| QueryMeaning.CompareRowsMeans | packages/column-live-view-engine/src/raw-query-plan.ts:160-172 | One entry is listed before another if and only if the first column in which they differ puts it there, the smaller value first when ascending and the larger when descending, or no column tells them apart and its key is the smaller text. |
| QueryMeaning.ViewListsTheRows | packages/column-live-view-engine/src/raw-query-plan.ts:160-208 | The view of a raw query is exactly the rows that meet its clause, each under its key once, in the order of its columns. |
| QueryMeaning.RawAnswerMeans | packages/column-live-view-engine/src/active-raw-query.ts:366-423 | What a raw query shows of any table is that many of those rows from its offset on as its limit lets through, with the selected fields each row has, and the number of all of them. |
| Predicates.PredicateFilterPlans | packages/column-live-view-engine/src/raw-predicate-plan.ts:123-250 | Every hint emitted for a filter follows from the compiled matcher, and unless the callback stays required the hints together amount to it. |
| Predicates.CompilePredicateParts | packages/column-live-view-engine/src/raw-predicate-compiler.ts:186-221 | The hints of a whole clause are necessary for a row to match, they are exact when the callback may be skipped, and they name filtered fields only. |
| ActiveRawQuery.MakeRawQueryPlan | packages/column-live-view-engine/src/raw-query-plan.ts:190-208 | Compiling a decoded query gives a query that every execution, scan and lease below accepts, with the clause, order, selection and window it was given; what it then matches and shows is said by `ClauseMeaning.ClauseMeans` and `QueryMeaning.RawAnswerMeans`. |
| ActiveRawQuery.SameKeySameView | packages/column-live-view-engine/src/raw-query-plan.ts:37-46 | Two raw queries with one cache key match the same rows, compare every two entries alike and have the same view of every table, so they may share an execution. |
| JsonText.StringifyIsInjective | packages/column-live-view-engine/src/query-value.ts:112-113 | Different tokens have different JSON texts, with strings escaped as in section 7 of RFC 8259. |
| QueryValueText.StableStringDecidesEquality | packages/column-live-view-engine/src/query-value.ts:22-113 | Two query values have one canonical text if and only if they are equal, in whatever order their objects list the fields. |
| QueryValueText.SomeTextsTellNumbersApart | packages/column-live-view-engine/src/query-value.ts:30-33 | There is a way to write numbers and decimals that tells all of them apart, so what is proved for such ways is not proved of nothing. |
| GroupKeys.GroupKeyDecidesFields | packages/column-live-view-engine/src/grouped-query-plan.ts:103-122 | Two rows have one group key if and only if they agree on every group field. |
| GroupKeys.GroupedQueryPlanGroupKey | packages/column-live-view-engine/src/grouped-query-plan.ts:70-122 | The key written token by token, with its fallback as soon as one value is a decimal, is always the canonical text. |
| QueryClauses.RawKeyDecidesQuery | packages/column-live-view-engine/src/raw-query-plan.ts:37-46 | Two raw queries have one cache key if and only if their clauses are equal, in whatever order they name fields and operators, and they order by the same columns; a query without a clause differs from one with an empty clause. |
| QueryClauses.OneKeyOnePredicateOneOrder | packages/column-live-view-engine/src/raw-query-plan.ts:37-46 | The filters that two clauses under one cache key stand for accept the same rows, whatever the row, and the orders under it compare any two entries alike. |
| QueryClauses.SameFilter | packages/column-live-view-engine/src/raw-predicate-compiler.ts:167-184 | Equal query values are compiled to one filter, whether they are operator objects in any order of their keys, plain values, lists or objects that are no operators; what a filter means is the next row. |
| ClauseMeaning.FilterMeans | packages/column-live-view-engine/src/raw-predicate-compiler.ts:83-184 | A value passes a filter if and only if it stands in the relation of every operator the filter writes to that operator's operand: equal, comparable and not equal, one of a list, starting with a text, or smaller or larger and of the same ordered kind. A plain value asks for equality, and an operator without an operand for the impossible. |
| ClauseMeaning.ClauseMeans | packages/column-live-view-engine/src/raw-predicate-compiler.ts:186-221 | A row matches a clause if and only if every field the clause names meets its filter. |
| QueryCacheKeys.WindowKeyDecidesWindow | packages/column-live-view-engine/src/raw-query-plan.ts:48-55 | Two windows have one cache key if and only if offset and limit agree, an absent limit included. |
| LiveQueries.GroupedKeyDecidesQuery | packages/column-live-view-engine/src/grouped-query-plan.ts:57-68 | Two decoded grouped queries have one cache key if and only if they have the same group fields, orders, offset and limit, the same aggregates in whatever order these are listed, and equal clauses. |
| OrderedWindow.OrderedRangeBoundsForField | packages/column-live-view-engine/src/topic-ordered-window.ts:168-217 | Bounds exist exactly when every range filter of the field is plannable, and every value that satisfies all of them lies within the strengthened bounds. |
| OrderedWindow.IntersectOrderedEqualityValues | packages/column-live-view-engine/src/topic-ordered-window.ts:396-419 | The merge walk over two sorted lists keeps exactly the values in both. |
| OrderedWindow.DistinctOrderedValues | packages/column-live-view-engine/src/topic-ordered-window.ts:382-394 | Sorting and dropping neighbours that compare equal gives the same values, strictly ascending. |
| OrderedWindow.OrderedEqualityValuesForField | packages/column-live-view-engine/src/topic-ordered-window.ts:118-166 | The values to seek are exactly those that satisfy all equality and list filters of a field; there are none to seek if and only if no list is empty and the field has no such filter or one whose values the index cannot seek. |
| OrderedIndex.OrderedSlotBoundIndex | packages/column-live-view-engine/src/topic-ordered-window.ts:230-248 | The binary search splits the index exactly where the predicate turns true. |
| OrderedIndex.InsertSlotIntoIndex | packages/column-live-view-engine/src/topic-raw-ordered-window-index.ts:42-51 | Inserting a slot keeps the index the one sorted listing of the live slots. |
| OrderedIndex.RemoveSlotFromIndex | packages/column-live-view-engine/src/topic-raw-ordered-window-index.ts:62-67 | Removing a slot keeps the index the one sorted listing of the slots that stay. |
| OrderedIndex.BuildIndex | packages/column-live-view-engine/src/topic-raw-ordered-window-index.ts:123-149 | An index built on demand lists all slots in the order of its column. |
| OrderedIndex.OrderedSlotIndexSpans | packages/column-live-view-engine/src/topic-raw-ordered-window-index.ts:307-395 | The spans are disjoint, come in index order, and cover an index position if and only if its value satisfies the bounds and the equality values, for either direction and for contradictory bounds. |
| CandidateIndex.UpdateScalarPredicateIndexes | packages/column-live-view-engine/src/topic-predicate-candidate-index.ts:45-65 | Adding or removing a slot leaves every retained bucket exact, whether a bucket grows, is evicted or becomes empty. |
| CandidateIndex.UnionScalarPredicateSlots | packages/column-live-view-engine/src/topic-predicate-candidate-index.ts:194-275 | A union of buckets, built in the same pass where they are missing, holds exactly the slots with one of the keys, and the index stays exact when the build is abandoned. |
| WindowScanner.RangeCandidateSlots | packages/column-live-view-engine/src/topic-predicate-candidate-index.ts:316-347 | Slots taken from range spans include every slot that satisfies all hints. |
| WindowScanner.SelectedPredicateCandidateSlots | packages/column-live-view-engine/src/topic-predicate-candidate-index.ts:67-131 | Whatever candidate list is selected has no duplicates and includes every slot that satisfies all hints. |
| BoundedWindow.ScanBoundedSorted | packages/column-live-view-engine/src/topic-raw-window-scanner.ts:247-304 | Bounded sorted insertion returns the slice of the sorted matching slots and their exact number. |
| BoundedWindow.RetainBoundedSlot | packages/column-live-view-engine/src/topic-raw-window-scanner.ts:356-418 | Pushing or replacing the root of the array heap keeps it a heap that holds the best slots seen. |
| BoundedWindow.ScanBoundedHeap | packages/column-live-view-engine/src/topic-raw-window-scanner.ts:306-347 | The bounded heap returns the slice of the sorted matching slots and their exact number. |
| BoundedWindow.ScanSorted | packages/column-live-view-engine/src/topic-raw-window-scanner.ts:204-245 | Collecting and sorting all matching slots returns that slice too. |
| BoundedWindow.ScanOrdered | packages/column-live-view-engine/src/topic-raw-window-scanner.ts:133-156 | Walking slots that are already in order returns that slice too. |
| WindowScanner.ScanTopicRawWindow | packages/column-live-view-engine/src/topic-raw-window-scanner.ts:50-94 | For every plan and every valid state of the indexes, whichever access path is taken, the window is the slice of the filtered and sorted table and the total is exact; the rows are untouched and the indexes stay valid. |
| RowStorage.ReplaceSlot | packages/column-live-view-engine/src/topic-row-storage.ts:182-209 | Replacing a row in its slot keeps columns, sorted indexes and buckets exact, with and without knowing which fields changed. |
| RowStorage.AppendSlot | packages/column-live-view-engine/src/topic-row-storage.ts:182-209 | Appending a row keeps columns, sorted indexes and buckets exact. |
| RowStorage.DeleteSlot | packages/column-live-view-engine/src/topic-row-storage.ts:233-266 | Moving the last row into a freed slot keeps columns, sorted indexes and buckets exact. |
| RowStorage.TopicRowStorage.SetPrepared | packages/column-live-view-engine/src/topic-row-storage.ts:182-209 | Storing a row puts it under its key and nothing else, reports whether anything changed, and records a truthful change. |
| RowStorage.TopicRowStorage.SetPreparedMany | packages/column-live-view-engine/src/topic-row-storage.ts:211-231 | Storing a batch is storing its rows in order, even though a larger batch drops the sorted indexes first; the count it gives is the number of rows that differed from what their key held when their turn came. |
| RowStorage.PutAllKeepsTheLast | packages/column-live-view-engine/src/topic-row-storage.ts:211-231 | After storing a batch a key holds the last row the batch has for it. |
| RowStorage.TopicRowStorage.Delete | packages/column-live-view-engine/src/topic-row-storage.ts:233-266 | Deleting removes exactly one key, keeps keys and slots in bijection, and records a truthful change. |
| RowStorage.TopicRowStorage.ScanRawWindow | packages/column-live-view-engine/src/topic-row-storage.ts:281-283 | A scan of the stored rows gives their filtered, sorted and sliced view and changes at most the derived indexes. |
| NumberColumn.NumberTopicColumn.Set | packages/column-live-view-engine/src/topic-column-vector.ts:155-167 | Writing a slot of the doubling arrays writes that slot of the sequence of optional numbers; a write past the end leaves the skipped slots empty. |
| NumberColumn.NumberTopicColumn.CopySlot | packages/column-live-view-engine/src/topic-column-vector.ts:169-176 | Copying a slot copies the optional number, an empty one when the source lies past the end. |
| NumberColumn.NumberTopicColumn.Pop | packages/column-live-view-engine/src/topic-column-vector.ts:178-185 | Popping drops the last optional number and leaves an empty column empty. |
| NumberColumn.NumberTopicColumn.EnsureCapacity | packages/column-live-view-engine/src/topic-column-vector.ts:197-212 | Growing the arrays keeps what the column holds. |
| NumberColumn.DeleteSlot | packages/column-live-view-engine/src/topic-row-storage.ts:245-259 | Copying the last slot over a deleted one and popping it leaves the numbers of the column of values from which that slot was deleted in the same way. |
| ChangeJournal.TopicRowChangeJournal.Record | packages/column-live-view-engine/src/topic-row-change-journal.ts:94-104 | Recording keeps the pending changes a replay of the running mutation, or marks them as overflowed. |
| ChangeJournal.TopicRowChangeJournal.Commit | packages/column-live-view-engine/src/topic-row-change-journal.ts:75-92 | Committing appends the table to the history and keeps every retained batch a step of it, through trimming and invalidation; while someone holds the journal and the mutation was recorded whole, the new batch is kept and exactly the oldest beyond the capacity go. |
| ChangeJournal.TopicRowChangeJournal.Release | packages/column-live-view-engine/src/topic-row-change-journal.ts:106-111 | Releasing counts down once, never below zero, and drops the batches only with the last holder. |
| ChangeJournal.TopicRowChangeJournal.ChangesSince | packages/column-live-view-engine/src/topic-row-change-journal.ts:38-65 | Batches are returned if and only if the journal reaches back that far, and replaying them on the table of that version gives the current table. |
| RetainedWindow.ReplaceRetainedMatchingEntryAtIndex | packages/column-live-view-engine/src/active-raw-query.ts:116-134 | A retained entry is replaced in place if and only if it is there under its key and does not move behind its old place in a bounded window. |
| RetainedWindow.FollowChanges | packages/column-live-view-engine/src/active-raw-query.ts:199-278 | After any run of batches the kept, replaced and inserted entries account for every matching row, and the running total is exact. |
| RetainedWindow.RetainedLimitAfterInsertedChanges | packages/column-live-view-engine/src/active-raw-query.ts:155-177 | After a removal the window is cut behind the last remaining entry, which exists: the tail is never read on an empty window. |
| RetainedWindow.TailMergeLeads | packages/column-live-view-engine/src/active-raw-query.ts:155-177 | Cut there, the merged list is an exact prefix of the new view. |
| RetainedWindow.UpdateFromRetainedChanges | packages/column-live-view-engine/src/active-raw-query.ts:179-345 | An evaluation that was current before the batches becomes current after them, or the update gives up. Counting and queries without a limit never give up; otherwise the update goes through if and only if every changed row that has matched all along is retained and in a bounded window does not move back, the retained rows that have matched all along still reach the end of the base window, and new rows come to a filled window only. |
| RetainedWindow.InsertionsCanBeFollowed | packages/column-live-view-engine/src/active-raw-query.ts:179-345 | Changes that only bring rows to a filled window need no rescan if and only if the window alone still reaches the end of the base window. |
| RetainedWindow.ReplacementsCanBeFollowed | packages/column-live-view-engine/src/active-raw-query.ts:179-345 | Changes that only replace retained rows in place or move them forward never need a rescan. |
| ActiveRawQuery.BaseLimitForActiveWindows | packages/column-live-view-engine/src/active-raw-query.ts:451-463 | The base limit reaches the end of every active window and is the end of one of them. |
| ActiveRawQuery.EvaluateBaseQuery | packages/column-live-view-engine/src/active-raw-query.ts:55-112 | A rescan leaves an exact prefix of the view of the current version: every row without a limit, otherwise those of the base window and one more, or 64 more from 128 on, as far as there are rows. |
| ActiveRawQuery.AcquireRawQueryWindow | packages/column-live-view-engine/src/active-raw-query.ts:472-486 | Leasing a window counts it once more and nothing else; counts stay the sum of the windows' counts. |
| ActiveRawQuery.ReleaseRawQueryWindow | packages/column-live-view-engine/src/active-raw-query.ts:488-503 | Giving a window back takes one lease away, and the window with its last one; an unleased window changes nothing. |
| ActiveRawQuery.Latest | packages/column-live-view-engine/src/active-raw-query.ts:505-553 | Brought up to date, incrementally or by a rescan, the shared evaluation is current for the stored rows, reaches every leased window and is bounded by the end of one of them. |
| ActiveRawQuery.ProjectionReadsTheRow | packages/column-live-view-engine/src/active-raw-query.ts:409-423 | A projection read from the columns of the slot a key is stored in is the projection of the stored row. |
| ActiveRawQuery.LatestEvaluation | packages/column-live-view-engine/src/active-raw-query.ts:366-449 | Sliced and projected to any leased window, the shared evaluation is exactly the lease's own filtered, sorted, sliced and projected view with the exact total. |
| GroupedQuery.MadePlanIsValid | packages/column-live-view-engine/src/grouped-query-plan.ts:167-186 | Every decoded grouped query compiles to a plan the grouped results below apply to: aliases differ and group keys coincide exactly for equal group fields. |
| GroupedQuery.GroupsAreByFields | packages/column-live-view-engine/src/grouped-query-plan.ts:103-122 | The group of a matching row is exactly the matching rows with its group fields. |
| GroupedAggregates.UpdateReflects | packages/column-live-view-engine/src/grouped-aggregate-state.ts:209-276 | Adding a member keeps each of the seven kinds of aggregate state exact. |
| GroupedAggregates.RemoveReflects | packages/column-live-view-engine/src/grouped-aggregate-state.ts:297-351 | Removing a member keeps the state exact at once, or marks a minimum or maximum that has to be found anew. |
| GroupedAggregates.RecomputeRetainedMinMaxAggregateState | packages/column-live-view-engine/src/grouped-aggregate-state.ts:278-295 | The minimum or maximum found anew is the best remembered value. |
| GroupedAggregates.ReflectedValue | packages/column-live-view-engine/src/grouped-aggregate-state.ts:359-373 | A state that is not marked shows exactly the aggregate of its members; what that aggregate is, is the next row. |
| AggregateMeaning.AggregateMeans | packages/column-live-view-engine/src/grouped-aggregate-state.ts:209-373 | The value of an aggregate, for any values: the number of them, the number of different ones, the exact sum of the bigints or of all numeric values, the average a with a times their number equal to their sum and zero where there is none, the value that no other is smaller or larger than. |
| GroupedEvaluation.EvaluateGroupedRows | packages/column-live-view-engine/src/grouped-query-evaluation.ts:18-56 | One pass over the slots gives the query's answer: group by the fields, aggregate, sort, slice. |
| GroupedHeap.BoundedGroups.RetainBoundedGroup | packages/column-live-view-engine/src/grouped-window-evaluation.ts:161-189 | Offering a group keeps the best groups in the heap, and the recycled list of order values handed on is used by no entry. |
| GroupedHeap.KeepBestGroups | packages/column-live-view-engine/src/grouped-window-evaluation.ts:191-222 | For any order in which groups come, the heap ends with the best of them. |
| GroupedHeap.GroupedEvaluationFromGroups | packages/column-live-view-engine/src/grouped-window-evaluation.ts:235-246 | The bounded heap and sorting all groups give the same answer. |
| GroupedWindow.GroupedEvaluationFromEntries | packages/column-live-view-engine/src/grouped-window-evaluation.ts:247-264 | Sorting and slicing the finalized groups gives the query's answer, in whatever order they were listed. |
| GroupedMeaning.EntryShowsGroup | packages/column-live-view-engine/src/grouped-query-evaluation.ts:40-54 | An entry of a grouped answer has the group fields and the aliases and no other field: every row with its group fields counts into its aggregates, once, and no other row does. |
| GroupedMeaning.GroupedAnswerMeans | packages/column-live-view-engine/src/grouped-window-evaluation.ts:235-264 | What a grouped query shows of any table: one row for every group of rows that meet the clause, no row in two groups, listed in the order of its group fields and aliases, from its offset on and up to its limit, with the number of all groups. |
| GroupedMeaning.AdmissibleMeans | packages/column-live-view-engine/src/grouped-incremental-execution.ts:165-279 | A table is within the limits if and only if it has at most the allowed groups and, unless the limit of the query is zero, at most the allowed rows in all and per group, and at most the allowed remembered values: one for each matching row and each aggregate that has to remember values. |
| GroupedIncremental.RemoveMember | packages/column-live-view-engine/src/grouped-incremental-execution.ts:281-309 | Removing a member keeps the groups those of the remaining rows; a group that loses its last member goes. |
| GroupedIncremental.UpsertMember | packages/column-live-view-engine/src/grouped-incremental-execution.ts:421-449 | Putting a row into its group keeps the groups those of the rows, and opens a group where there was none. |
| GroupedIncremental.ReplaceInAggregates | packages/column-live-view-engine/src/grouped-incremental-execution.ts:451-473 | Replacing a member within its group touches only aggregates that can change, keeps all of them exact or marked, and notes every change an ordering could see. |
| GroupedPatch.NeutralAfterReplace | packages/column-live-view-engine/src/grouped-incremental-execution.ts:361-371 | A replacement noted without asking for a full evaluation leaves the order of the groups as it was. |
| GroupedPatch.NeutralView | packages/column-live-view-engine/src/grouped-incremental-execution.ts:599-634 | While the order is unchanged, ranking all groups anew is renewing their rows in place. |
| GroupedPatch.PatchOrderNeutralMaterializedEvaluation | packages/column-live-view-engine/src/grouped-incremental-execution.ts:599-634 | Patching the visible rows of marked groups gives exactly the answer of sorting and slicing all groups. |
| GroupedBatches.FollowChange | packages/column-live-view-engine/src/grouped-incremental-execution.ts:514-596 | A change is admitted if and only if the table after it is within the limits, and the groups then are those of that table. |
| GroupedBatches.RecomputeDirtyAggregateStates | packages/column-live-view-engine/src/grouped-incremental-execution.ts:395-401 | Once the marked minimums and maximums are found anew, every group is exact. |
| GroupedBatches.ApplyMaterializedIncrementalGroupedQueryBatch | packages/column-live-view-engine/src/grouped-incremental-execution.ts:514-597 | A batch is admitted if and only if the table is within the limits after each of its changes, and every group is exact at its end. |
| GroupedState.BuildIncrementalGroupedQueryState | packages/column-live-view-engine/src/grouped-incremental-execution.ts:165-279 | A state is built if and only if the table is within the limits, and it then shows the query's answer. |
| GroupedState.ApplyIncrementalGroupedQueryBatches | packages/column-live-view-engine/src/grouped-incremental-execution.ts:650-748 | A run of batches is followed if and only if the table is within the limits after each of their changes; the state then shows the answer on the new table, for groups with members and for counts alone. |
| GroupedExecution.MakeIncrementalGroupedQueryExecution | packages/column-live-view-engine/src/grouped-incremental-execution.ts:778-820 | A new execution is incremental if and only if the stored table is within the limits, and it shows the answer either way. |
| GroupedExecution.LatestGrouped | packages/column-live-view-engine/src/grouped-incremental-execution.ts:815-854 | Brought up to date, a grouped execution shows what evaluating from scratch shows. It stops being incremental, says so once and never takes it back, if and only if a table on the way went beyond the limits, where the journal reaches back, or the last committed one does, where it does not. |
| LiveQueries.SameGroupedKeySameAnswer | packages/column-live-view-engine/src/grouped-query-plan.ts:57-68 | Two grouped queries with one cache key match the same rows and show the same groups, order, slice and total on every table. |
| LiveQueries.QueryHasAnswer | packages/column-live-view-engine/src/query-execution.ts:38-62 | Every valid query, raw or grouped, has an answer on every table, with distinct keys and no more rows than it counts. |
| QueryDelta.DeltaOperations | packages/column-live-view-engine/src/query-result.ts:259-335 | Replaying the operations on the previous window is accepted at every step and gives the next window, by single move, replacement and general strategy alike; the list is empty if and only if the windows are equal. No operation is idle or comes twice: only keys that are gone are removed, only new ones inserted, only rows that changed updated, nothing is moved to where it is, and where one entry changed its place there is one move and nothing but updates after it. |
| LiveEvents.NextEvent | packages/column-live-view-engine/src/query-result.ts:350-364 | Nothing is told if and only if window and total are unchanged; otherwise the event is a delta between the two versions. |
| ClientState.DeltaMeans | packages/client/src/live-query-state.ts:174-197 | A delta is taken by a client that is ready, at the version the delta starts from and before the one it leads to, if all operations fit and no fewer rows are counted than are left; otherwise what is shown stays and the client is stale. |
| ClientState.ApplyDelta | packages/client/src/live-query-state.ts:174-197 | The replay with its key index accepts and computes exactly what the window-level reducer does, and turns stale without touching the rows when an operation or a version does not fit. |
| ClientState.ApplyEvent | packages/client/src/live-query-state.ts:209-220 | Snapshots, deltas and statuses are reduced as specified, and keys stay unique. |
| LiveEvents.ClientFollows | packages/client/src/live-query-state.ts:157-220 | After any number of a subscription's events the client knows exactly the evaluation the last of them told: versions chain and no operation is refused. |
| Registry.RegisteredAfterCommit | packages/column-live-view-engine/src/topic-store-mutation.ts:78-102 | A commit leaves every execution true of the version it remembers and every lease counted. |
| TopicStore.Store.Publish | packages/column-live-view-engine/src/topic-store-mutation.ts:187-201 | Publishing stores the rows in order, reports how many changed what their key held, commits the new table if that number is not zero and nothing otherwise, and keeps the store valid. |
| TopicStore.Store.Delete | packages/column-live-view-engine/src/topic-store-mutation.ts:230-239 | Deleting removes the row and commits the table without it if there was one, commits nothing otherwise, reports which, and keeps the store valid. |
| TopicStore.Store.AcquireRaw | packages/column-live-view-engine/src/active-raw-query.ts:556-584 | A raw lease shares the execution under its cache key or makes one that holds the journal once. |
| TopicStore.Store.ReleaseRaw | packages/column-live-view-engine/src/active-raw-query.ts:586-610 | The last lease of a raw execution drops it and lets the journal go once; releasing what is not leased does nothing. |
| TopicStore.Store.AcquireGrouped | packages/column-live-view-engine/src/active-materialized-query.ts:75-111 | A grouped lease shares a slot or makes one that holds the journal exactly if its execution is incremental. |
| TopicStore.Store.EvaluateGrouped | packages/column-live-view-engine/src/active-materialized-query.ts:42-73 | A grouped lease sees the answer on the current table; an execution that falls back lets the journal go there and then, once. |
| TopicStore.Store.ReleaseGrouped | packages/column-live-view-engine/src/active-materialized-query.ts:113-131 | The last grouped lease drops the slot and lets the journal go only if the slot still held it. |
| TopicStore.Store.Evaluate | packages/column-live-view-engine/src/active-raw-query.ts:425-449 | After any run of mutations, acquires, releases and fallbacks a lease of either kind sees exactly what its query shows of the current table; throughout, the journal's count is the number of raw executions plus that of incremental grouped ones. |
| TopicStore.Store.Reset | packages/column-live-view-engine/src/topic-store-lifecycle.ts:31-42 | A reset empties the rows, forgets the executions and leaves the journal with no holder. |
| TopicStore.Store.CloseQueries | packages/column-live-view-engine/src/active-query.ts:77-86 | Forgetting the executions lets the journal go for each that held it and keeps the rows. |
| EventQueue.DroppingQueue.ConsumerReadsWithoutGap | packages/column-live-view-engine/src/live-subscription.ts:62-77 | What a consumer has read is the produced events without a gap, and after them at most one terminal status. |
| EventQueue.DroppingQueue.CutOffWith | packages/column-live-view-engine/src/live-subscription.ts:51-77 | Clearing the queue and offering a last status always finds room: the status is the one event left to read. |
| LiveSubscription.Subscription.constructor | packages/column-live-view-engine/src/live-subscription.ts:109-156 | A new subscription holds its lease, has queued the snapshot of its query on the current table, its cursor stands there, and its queue has the capacity asked for. |
| LiveSubscription.Subscription.Notify | packages/column-live-view-engine/src/live-subscription.ts:79-107 | A notified subscription is closed if and only if the answer on the last committed table differs from what it showed and its queue is full: then its lease goes back and one status is left to read. Nothing is told if the answer is the same, and one delta between the two answers waits last if it differs and there is room; nothing is consumed. |
| LiveSubscription.Subscription.Close | packages/column-live-view-engine/src/live-subscription.ts:146-162 | Leaving gives the lease back once, and what waits can still be read. |
| LiveSubscription.Subscription.ClientIsExactOrClosed | packages/column-live-view-engine/src/live-subscription.ts:79-156 | A client that replays what it has read knows nothing yet, or exactly what the query showed of a committed table, or that the subscription is closed. |
| RemoteSubscription.RemoteSubscription.OfferRemoteEvent | packages/client/src/remote-subscription.ts:58-88 | An event is queued if and only if there is room; otherwise the lifecycle closes, at most once, and one overflow status is left to read. |
| RemoteSubscription.RemoteSubscription.Relay | packages/client/src/remote-subscription.ts:128-134 | Relaying moves the next event from the first queue to the second, or ends the second with the first; the first stays as open as it was. |
| RemoteSubscription.RemoteSubscription.Close | packages/client/src/remote-subscription.ts:106-134 | Closing the scope stops the relay, closes the lifecycle exactly once in all, and leaves what waits to be read. |
| RemoteSubscription.RemoteSubscription.ReadsWithoutGap | packages/client/src/remote-subscription.ts:58-141 | Over both queues the reader misses nothing: it has read the events first produced and after them at most two statuses that end its readiness. |
| RemoteClient.RemoteClientIsExactOrTold | packages/client/src/live-query-state.ts:157-220 | A client behind both queues knows exactly what it was told last, or shows that or nothing and knows that it may be old. |
| LiveSystem.LiveSystem.Publish | packages/column-live-view-engine/src/topic-store-mutation.ts:151-201 | Step of the whole system: rows are stored, the number of changed rows is reported, a version is committed if and only if there is one, and the system invariant holds (valid store, every connection in order, every open subscription's lease held). |
| LiveSystem.LiveSystem.Delete | packages/column-live-view-engine/src/topic-store-mutation.ts:230-239 | Step of the whole system: a row is deleted, a version is committed if and only if there was one, and the system invariant holds. |
| LiveSystem.LiveSystem.Subscribe | packages/column-live-view-engine/src/topic-store-subscription.ts:19-47 | Step of the whole system: a new connection joins, current, with room for as many events as asked for, and the others are as they were. |
| LiveSystem.LiveSystem.Notify | packages/column-live-view-engine/src/topic-store-mutation.ts:134-149 | Step of the whole system: one subscriber is told, cut off or left alone exactly as its answer and its queue demand; even then no other subscriber's lease is lost. |
| LiveSystem.LiveSystem.NotifyAll | packages/column-live-view-engine/src/topic-store-mutation.ts:134-149 | After notifying all, every subscription stands as a single notification leaves it: cut off if and only if its answer differs and its queue is full, otherwise open and showing the table as last committed. |
| LiveSystem.LiveSystem.CloseSubscription | packages/column-live-view-engine/src/topic-store-subscription.ts:73-90 | Step of the whole system: a subscriber leaves. |
| LiveSystem.LiveSystem.Reset | packages/column-live-view-engine/src/topic-store-lifecycle.ts:56-70 | Step of the whole system: the store is emptied, every subscription that was open is closed with one status to read, and those already closed are left as they were. |
| LiveSystem.LiveSystem.CloseSubscriptions | packages/column-live-view-engine/src/topic-store-lifecycle.ts:72-86 | Step of the whole system: the engine closes, the rows stay, every subscription that was open is closed with one status to read, and those already closed are left as they were. |
| LiveSystem.LiveSystem.Relay | packages/client/src/remote-subscription.ts:128-134 | Step of the whole system: the next event leaves the first queue and waits in the second, or, that being full, is replaced by one overflow status and the lifecycle closes; with no event left the relay ends exactly if the first queue has ended. The invariant holds. |
| LiveSystem.LiveSystem.Fail | packages/client/src/remote-subscription.ts:120-122 | Step of the whole system: the source fails, the relay stops, and the last event that waits for the client is a status that ends its readiness. The invariant holds. |
| LiveSystem.LiveSystem.CloseRemote | packages/client/src/remote-subscription.ts:106-134 | Step of the whole system: the client's scope closes, the relay stops, the lifecycle has been closed exactly once, and what waits can still be read. The invariant holds. |
| LiveSystem.LiveSystem.Read | packages/client/src/remote-subscription.ts:135-138 | Step of the whole system: the client reads the event that has waited longest, or nothing if and only if none waits. The invariant holds. |
| LiveSystem.LiveSystem.ClientIsExactOrKnowsItMayBeOld | packages/client/src/live-query-state.ts:157-220 | In every state any of these steps can lead to, a client that has read anything is ready and shows exactly what its query shows of the table committed at the version it reports, or it knows that it may be old and shows such a table or nothing. |
| LiveSystem.LiveSystem.CurrentClientShowsTheHead | packages/client/src/live-query-state.ts:157-220 | Once an open subscription has been notified and both queues are drained, its client shows what the query shows of the table as last committed. |
| HealthLedger.RingTellsUnlessItForgets | packages/column-live-view-engine/src/topic-health-ledger.ts:64-98 | For any mutations at any times, negative ones and a clock that goes back included, and at any moment, the ring tells exactly the mutations and rows of the closed second up to then if no mutation of that second has had its bucket taken away by a later one, and fewer mutations than there were otherwise. |
| HealthLedger.CountsForOneSecond | packages/column-live-view-engine/src/topic-health-ledger.ts:156-174 | A mutation counts, with all its rows, from its own millisecond up to the thousandth after it and at no other moment. |
| HealthLedger.OrderlyClockForgetsNothing | packages/column-live-view-engine/src/topic-health-ledger.ts:64-98 | On a clock that starts at zero or later and never goes back no bucket is taken away within its second, so the ring is exact at every moment from the last mutation on. |
| HealthLedger.ClockGoingBackLosesMutations | packages/column-live-view-engine/src/topic-health-ledger.ts:64-98 | A clock that goes back can break the rate: after mutations at 1001 and at 0, in this order, one mutation lies within the second up to 1001 and the ring tells none. |
| HealthLedger.TopicHealthLedger.Snapshot | packages/column-live-view-engine/src/topic-health-ledger.ts:156-187 | The reported queued events are the sum over the open subscriptions, and the reported rates are exactly those of the closed second up to now if and only if no mutation of that second has had its bucket taken away; else too few mutations are reported. |
| HealthLedger.TopicHealthLedger.UpdateQueueDepth | packages/column-live-view-engine/src/topic-health-ledger.ts:119-132 | Updating one depth keeps the total the sum of all depths, and the largest depth of that subscription the larger of the old one and the new. |
| HealthLedger.TopicHealthLedger.CloseSubscription | packages/column-live-view-engine/src/topic-health-ledger.ts:109-117 | Closing takes a subscription's depth out of the total; the clamp at zero is never needed. |

## Left out

- Strings are sequences of Unicode scalar values; lone surrogates, and the well-formed escaping of them, are not part of this model.
- Numbers are exact rationals: negative zero, NaN, the infinities, rounding of sums and the 100-digit rounding of decimal division are left out. How the runtime writes numbers and decimals is a parameter that writes different numbers differently.
- Field values are scalars; structured field values, their equality and their cloning are left out, and so are maps, sets and cycles among query values.
- Windows of one execution are kept under offset and limit instead of under their key text, which decides exactly these.
- The Effect runtime is left out: fibers, scopes, spans, interruption and semaphores. A mutation, a notification and each step of a queue are atomic; a notification that runs between another mutation's row changes and its commit is not modelled.
- The network between the two queues is left out: the relay takes from the first queue directly. Defects of the producer and failures of the opening hook are left out.
- Decoding and validating queries and rows is left out; decoded queries are the preconditions of compiling them. An object that mixes operators with other keys, which validation refuses, is a filter that no scalar meets.
- Patching a row is left out: it is a publish of the merged row.
- The execution records are values in the registry, so the identity of the object a lease refers to is not captured; marked aggregates are named by group and alias instead of by reference.
- Pairs of loops that differ only in walking all slots or candidate slots are one method over a list of slots.
- Reserving capacity, cached matchers, cached projection and order plans, typed column fast paths and diagnostic counters are left out; for well-typed rows the typed comparisons coincide with the general one.
- The bigint, decimal, string and generic columns are left out; they are plain arrays.
- The safe-integer limits on versions, offsets and limits are replaced by unbounded naturals.
- The other counters of the health ledger (pending batches and the sums it reports over subscriptions) are left out: they are plain counters.
- The HTTP, Kafka, TCP, React and server-rendering packages are left out.
