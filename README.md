# Task board order maintenance, in Dafny

A model of the order-maintenance engine of the py-gql-tasks kanban board
(`task_board/task_board/schema.py`). Boards hold lanes, lanes hold tasks;
every lane carries an integer `order` among the lanes of its board and every
task an integer `order` among the tasks of its lane. The mutation resolvers
`moveLane`, `moveTask`, `createTask`, `updateTask` (its lane and order part)
and `deleteTask`, together with the shared shift routine `update_task_order`,
renumber siblings with bulk `order = order ± 1` updates when an item is
moved or inserted.

Layout:

- `models.dfy` (module `Models`): the `TaskLane` and `Task` rows of
  `tasks/models.py` reduced to `board`, `lane` and `order`; optional
  arguments; the error kinds; `IsGiven`, the resolvers' truthiness test on
  an integer argument (absent and `0` both count as not given).
- `ordering.dfy` (module `Ordering`): the bulk updates (`ShiftTasks`,
  `ShiftLanes`), the save of a moved task (`Place`), `Reorder` (the
  behaviour of `update_task_order`), an independent per-task account of a
  move (`Displacement`) and the lemma that the two agree, the invariants
  (`TaskOrdersDistinct`, `LaneOrdersDistinct`, `BoardConsistent`) and the
  `max(order)` aggregate (`MaxOrder`).
- `resolvers.dfy` (module `Resolvers`): each resolver as a function from
  the tables it reads to its result and the tables it leaves. Errors
  return the tables unchanged (the `transaction.atomic` blocks make each
  resolver all-or-nothing).
- `schema.dfy` (module `Schema`): class `Store` with the `TaskLane` and
  `Task` tables as `map` fields. Its methods follow the resolvers statement
  by statement (look up, check, assign the loaded record, save, bulk
  update). Each is proved to return the result and leave the tables that
  the matching `Resolvers` function gives. The one departure is
  `Store.MoveLane`: it adds a board filter to the lane shift (see
  Findings), and the query as written is `Resolvers.MoveLaneAsWritten`.
- `properties.dfy` (module `Properties`): what the resolvers promise,
  proved about the `Resolvers` functions.
- `findings.dfy` (module `Findings`): the lane shift as written and the
  counterexample below.
- `scenarios.dfy` (module `Scenarios`): small concrete tables.

Behaviour reproduced as the code has it, although a default rank for an
empty lane or a board update on reparenting might be expected:

- A destination order of `0` counts as absent. `moveLane` and `moveTask`
  reject it as missing. `createTask` and `updateTask` treat it as "no
  order given".
- Appending to a lane with no tasks fails, because `max(order)` is null
  and `null + 1` raises. No baseline rank is used. Nothing is saved.
- Reparenting a task rewrites `lane_id` but never `board_id`. A move to a
  lane of another board therefore leaves the task's board stale.
  `Properties.MoveTaskBoardConsistency` proves that board consistency
  survives a move exactly when the destination lane is on the task's own
  board.
- Deleting a task leaves a gap in its lane's orders.
- The `boardId` field of the create and update inputs is never read.

## Model

| member | source | states |
|---|---|---|
| `Schema.Store.MaxTaskOrder` | task_board/task_board/schema.py:163-164 | returns the largest order among the lane's tasks, and None (SQL null) exactly when the lane has no task |
| `Schema.Store.UpdateTaskOrder` | task_board/task_board/schema.py:263-284 | the task table afterwards is `Reorder` of the table before: open-slot/close-gap across lanes, interval shift within a lane |
| `Schema.Store.DeleteTask` | task_board/task_board/schema.py:84-88 | NotFound for an unknown id; otherwise removes exactly that row and returns true |
| `Schema.Store.MoveLane` | task_board/task_board/schema.py:179-209 | result and lane table are those of the corrected `Resolvers.MoveLane` (no-op, missing-order error, interval shift within the lane's board); the query as written is `Resolvers.MoveLaneAsWritten` |
| `Schema.Store.MoveTask` | task_board/task_board/schema.py:212-240 | result and task table are those of `Resolvers.MoveTask`; the table of lanes is not written; every task's lane still exists |
| `Schema.Store.CreateTask` | task_board/task_board/schema.py:140-176 | result and task table are those of `Resolvers.CreateTask`; the new row gets the next key, which advances only on success |
| `Schema.Store.UpdateTask` | task_board/task_board/schema.py:91-137 | result and task table are those of `Resolvers.UpdateTask` (lane and order part) |
| `Ordering.ShiftTasks` | task_board/task_board/schema.py:269-273 | a bulk order update on tasks neither adds nor removes a row |
| `Ordering.ShiftLanes` | task_board/task_board/schema.py:200-207 | a bulk order update on lanes neither adds nor removes a row |
| `Ordering.Place` | task_board/task_board/schema.py:223-225 | saving a moved task overwrites its lane and order, keeps its board, and touches no other row |
| `Ordering.Reorder` | task_board/task_board/schema.py:263-284 | the sibling shift of `update_task_order` adds and removes no row, leaves the moved task as saved, and changes no task's lane or board |
| `Ordering.ReorderMatchesDisplacement` | task_board/task_board/schema.py:263-284 | the shift moves every task other than the moved one by exactly its independently defined `Displacement` (+1, -1 or 0), keeping its lane and board |
| `Ordering.ReorderPreservesDistinct` | task_board/task_board/schema.py:263-284 | if no two tasks of a lane shared an order before a move, none do after it, in every lane |
| `Ordering.ReorderLaneMembers` | task_board/task_board/schema.py:267-273 | after a move only the moved task has changed lane: it left its lane and joined the destination |
| `Ordering.MaxOrderCharacterized` | task_board/task_board/schema.py:163-164 | the aggregate's value is the unique m that is a task order of the lane and bounds all of them (None exactly for an empty lane) |
| `Resolvers.MoveLane` | task_board/task_board/schema.py:179-209 | `moveLane` with the board-filtered shift: succeeds exactly for an existing lane and its current or a non-zero order, returns the lane saved at that order, keeps the row set, writes nothing on an error |
| `Resolvers.MoveLaneAsWritten` | task_board/task_board/schema.py:179-209 | `moveLane` as written (shift with no board filter): the same success condition, result and row set as `Resolvers.MoveLane`, nothing written on an error |
| `Resolvers.MoveTask` | task_board/task_board/schema.py:212-240 | `moveTask` succeeds exactly on the no-op or a known (or unchanged) lane with a non-zero order; the saved task keeps its board and takes the requested lane and order; errors write nothing |
| `Resolvers.CreateTask` | task_board/task_board/schema.py:140-176 | `createTask` succeeds exactly for a known lane that has an order given or at least one task; the new row, under the new key, has the lane's board and the given order or max+1 |
| `Resolvers.UpdateTask` | task_board/task_board/schema.py:91-137 | `updateTask` fails exactly on an unknown task, an unknown new lane, or an empty new lane with no order; the saved task keeps its board and takes the requested lane; errors write nothing |
| `Resolvers.DeleteTask` | task_board/task_board/schema.py:84-88 | `deleteTask` succeeds exactly for an existing task and removes that row only |
| `Properties.ErrorsWriteNothing` | task_board/task_board/schema.py:179-240 | every resolver that returns an error leaves its table unchanged |
| `Properties.MoveLaneNoOp` | task_board/task_board/schema.py:183-185 | moving a lane to its current order returns it and writes nothing |
| `Properties.MoveLaneMissingOrder` | task_board/task_board/schema.py:189-192 | an absent or zero destination order gives "Destination Lane missing" and writes nothing |
| `Properties.MoveLaneLater` | task_board/task_board/schema.py:202-204 | moving later: the lane ends at `to`; other lanes of its board in [from+1, to] drop by one; all else unchanged |
| `Properties.MoveLaneEarlier` | task_board/task_board/schema.py:205-207 | moving earlier: the lane ends at `to`; other lanes of its board in [to, from-1] rise by one; all else unchanged |
| `Properties.MoveLanePreservesDistinct` | task_board/task_board/schema.py:194-207 | a lane move keeps the lane orders of every board pairwise distinct |
| `Properties.MoveTaskNoOp` | task_board/task_board/schema.py:218-220 | moving a task to its current lane and order returns it and writes nothing |
| `Properties.MoveTaskMissingOrder` | task_board/task_board/schema.py:229-233 | an absent or zero destination order gives "Destination Item Order missing" and writes nothing |
| `Properties.MoveTaskUnknownLane` | task_board/task_board/schema.py:223-224 | a destination lane that does not exist gives NotFound and writes nothing |
| `Properties.MoveTaskLater` | task_board/task_board/schema.py:277-280 | same-lane move later: the task ends at `to`; other tasks of the lane in [from+1, to] drop by one; all else unchanged |
| `Properties.MoveTaskEarlier` | task_board/task_board/schema.py:281-284 | same-lane move earlier: the task ends at `to`; other tasks of the lane in [to, from-1] rise by one; all else unchanged |
| `Properties.MoveTaskAcrossLanes` | task_board/task_board/schema.py:267-273 | cross-lane move: the task ends in the destination at `to` with its old board; destination tasks at or above `to` rise by one; source tasks at or above the old order drop by one; other lanes untouched |
| `Properties.MoveTaskAcrossLanesCounts` | task_board/task_board/schema.py:267-273 | a cross-lane move leaves the source lane with n-1 tasks and the destination with m+1 |
| `Properties.MoveTaskPreservesDistinct` | task_board/task_board/schema.py:213-240 | moveTask keeps the task orders of every lane pairwise distinct |
| `Properties.MoveTaskBoardConsistency` | task_board/task_board/schema.py:223-225 | the moved task keeps its board; from a consistent state, consistency holds afterwards exactly when the destination lane is on the task's board |
| `Properties.CreateTaskAppends` | task_board/task_board/schema.py:162-166 | without an order, the new task takes its lane's board and one more than the lane's largest order, and no other task changes |
| `Properties.CreateTaskInEmptyLaneFails` | task_board/task_board/schema.py:162-164 | without an order, creating in a lane with no tasks fails and saves nothing |
| `Properties.CreateTaskAtOrder` | task_board/task_board/schema.py:168-171 | with a non-zero order, the task is inserted there and every other task of the lane at or above it rises by one; the rest is untouched |
| `Properties.CreateTaskPreservesDistinct` | task_board/task_board/schema.py:155-171 | createTask keeps the task orders of every lane pairwise distinct |
| `Properties.CreateTaskBoardConsistency` | task_board/task_board/schema.py:158 | the new task's board is its lane's board, so creation keeps board consistency |
| `Properties.UpdateTaskLaneAppends` | task_board/task_board/schema.py:108-115 | a lane change without an order puts the task one past the destination's largest order; destination tasks stay; source tasks at or above the old order drop by one |
| `Properties.UpdateTaskAppendsAfter` | task_board/task_board/schema.py:130-132 | appending after the destination's largest order shifts nothing in the destination lane |
| `Properties.UpdateTaskToEmptyLaneFails` | task_board/task_board/schema.py:112-114 | a lane change without an order into a lane with no tasks fails and writes nothing |
| `Properties.UpdateTaskWithoutMoveWritesNothing` | task_board/task_board/schema.py:130-132 | when neither lane nor order changes, no sibling shifts and the task comes back as it was |
| `Properties.UpdateTaskOrderMatchesMove` | task_board/task_board/schema.py:121-132 | for every task, lane argument and non-zero order, an update has the same result and effect as moveTask to that lane and order (an unknown lane fails alike in both) |
| `Properties.UpdateTaskPreservesDistinct` | task_board/task_board/schema.py:127-132 | updateTask keeps the task orders of every lane pairwise distinct |
| `Properties.DeleteTaskKeepsInvariants` | task_board/task_board/schema.py:84-88 | deleting succeeds exactly for an existing task, removes only it, leaves the gap, and keeps distinctness and board consistency |
| `Findings.MoveLaneAsWrittenShiftsEveryBoard` | task_board/task_board/schema.py:200-204 | as written, moving a lane later puts it at `to` and lowers the order of every other lane in [from+1, to], whatever its board |
| `Findings.MoveLaneAsWrittenEarlier` | task_board/task_board/schema.py:205-207 | as written, moving a lane earlier raises the order of every lane in [to, from-1], whatever its board |
| `Findings.MoveLaneAsWrittenBreaksOtherBoard` | task_board/task_board/schema.py:200-207 | as written, a move on board 1 gives two lanes of board 2 the same order |
| `Findings.MoveLaneKeepsOtherBoard` | task_board/task_board/schema.py:200-207 | on the same tables the board-scoped move leaves board 2 alone |
| `Findings.MoveLaneAgreesOnOneBoard` | task_board/task_board/schema.py:200-207 | when all lanes are on one board, the board-scoped and as-written moves coincide |
| `Scenarios.MoveFirstTaskToEnd` | task_board/task_board/schema.py:277-280 | tasks ranked 1, 2, 3; moving the first to 3 ranks the others 1 and 2 |
| `Scenarios.MoveTaskIntoEmptyLane` | task_board/task_board/schema.py:267-273 | moving a task into an empty lane at 1 lowers the remaining source task from 2 to 1 |
| `Scenarios.AppendAfterLargestOrder` | task_board/task_board/schema.py:162-164 | appending after orders 1 and 2 gives 3; appending to an empty lane fails |

## Left out

- Schema.Store.MoveLane: runs the lane shift with a board filter that schema.py:200-207 does not have, so it does not renumber lanes of other boards as the source does. The source's query is `Resolvers.MoveLaneAsWritten`, and `Findings.MoveLaneAsWrittenShiftsEveryBoard`, `Findings.MoveLaneAsWrittenEarlier` and `Findings.MoveLaneAsWrittenBreaksOtherBoard` state what it does.
- MoveLaneEarlier (`Properties.MoveLaneEarlier`): states the earlier move of the corrected `Resolvers.MoveLane`, where only lanes of the moved lane's board rise. As written, schema.py:205-207 raises the lanes of every board in [to, from-1]; `Findings.MoveLaneAsWrittenEarlier` states that.
- MoveLaneLater (`Properties.MoveLaneLater`): likewise states the corrected later move; the as-written one, which lowers lanes of every board, is `Findings.MoveLaneAsWrittenShiftsEveryBoard`.

- Users and assignees are not modelled. This covers the `assignedTo` lookup in `createTask` and `updateTask`, and the NotFound it raises for an unknown user. Assignment is a plain attribute write with no part in ordering.
- Title, description, due date and tags edits are not modelled. So is the `datetime.now()` default. They are attribute writes and a clock read.
- The GraphQL type definitions, the ariadne wiring and the query resolvers are not modelled (`searchTasks`, `users`, `boards`, `lanes`, `tasks`, nested fields). They read rows and change nothing.
- `transaction.atomic`, locking and concurrent requests are not modelled. Each operation is atomic by construction.
- IDs are one type. The string-versus-integer comparisons that GraphQL ID typing can cause are not modelled. An ID argument counts as given when it is present.
- The 32-bit width of the `order` column is not modelled. Orders are unbounded integers, so overflow at the extremes is not captured.
- The fallback lane lookup at the top of `update_task_order` (schema.py:264-265) is not modelled. Every caller passes the lane.
- Errors are kinds, not messages. The wrapping of failures as "Task creation failed" or "Task updation failed" is not distinguished.
- Key allocation for new tasks is a counter. The database's sequence behaviour is not modelled.
- `tasks/admin.py` and the rest of `tasks/models.py` are not modelled: the admin display configuration and the ORM field declarations beyond `board`, `lane` and `order`.

## Findings

| source | as written | input that shows it | evidently intended | confidence | as-written member | corrected member |
|---|---|---|---|---|---|---|
| task_board/task_board/schema.py:200-207 | the lane shift filters `TaskLane` rows by order only, with no board filter, so lanes of every board are renumbered | boards 1 and 2 each with lanes ranked 1 and 2; `moveLane(first lane of board 1, 2)` lowers board 2's second lane to 1, next to board 2's first lane | shift only the lanes of the moved lane's board, keeping each board's lane orders distinct | high; not executed | `Findings.MoveLaneAsWrittenBreaksOtherBoard` | `Properties.MoveLanePreservesDistinct` |

`Resolvers.MoveLaneAsWritten` is the query as written. `Resolvers.MoveLane`
adds the board filter, and `Schema.Store.MoveLane` uses it.
