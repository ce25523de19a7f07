# Trollo board reordering, board normalisation and profile validation in Dafny

This project models three parts of the Trollo kanban client.

1. **The optimistic reorder engine of the board page**, in `src/views/Board/components/Columns.tsx`:
   - Two `onMutate` updaters compute the board shown while a request is in flight. One moves a column. The other moves a task, either inside its column or into another column.
   - The snapshot and rollback that wrap them: `onMutate` returns the cache entry it replaced, and `onError` writes it back.
   - The drop handlers `onDragEnd`, `onBoardDragEnd` and `onColumnDragEnd`. They turn a finished drag on the rendered board into the payload of one mutation.
2. **The `select` normaliser** of the board query, in `src/views/Board/Board.tsx`. It sorts the columns by `order` and each column's tasks by `order`.
3. **The three `validate` callbacks** of the profile form, in `src/views/EditProfile/EditProfile.tsx`, for login, name and password.

Modules:

- `OrderModel` (`orders.dfy`) describes each reordering on the bare list of sibling orders:
  - `Moved`: the directional shift.
  - `Closed`: a sibling leaves.
  - `Opened`: a sibling arrives.
  - `Dense(os, lo)`: the orders are distinct and fill `[lo, lo + n)`.

  The base `lo` is a parameter because the client never fixes one.
- `Entities` (`entities.dfy`) holds the board, column and task records and the two edit payloads. It also defines `Consistent`, the board invariant the drops keep: column ids unique, task ids unique across the whole board, and every order list dense from 1.
- `Reorder` (`reorder.dfy`) holds the two updaters as functions of the cached board.
- `Normalise` (`normalise.dfy`) holds `select`, written as a stable insertion sort keyed by `order`.
- `DragDrop` (`dragdrop.dfy`) holds the drop handlers. A handler that would read a property of `undefined` (a JavaScript `TypeError`) yields the outcome `Fault`.
- `Cache` (`cache.dfy`) is a class holding the raw cached board. It has the snapshot, apply and restore steps, and whole mutations whose server answer is a boolean parameter. Its `View` is the rendered board: react-query keeps the raw data and applies `select` when the data is read.
- `ProfileValidation` (`validation.dfy`) holds the validators. JavaScript strings, `charAt`, `length` and regular expressions without the `u` flag work on UTF-16 code units, so a value is a sequence of code units.

Behaviour of the code worth knowing when reading the model:

- **Order base.** Orders are 1-based in practice. The code never fixes a base, but a task dropped after the last task of another column is sent with order `destination.index + 1` (`Columns.tsx:272-273`). This keeps a column dense only when orders start at 1.
  - `DropKeepsConsistent` proves that the whole pipeline keeps every order list dense from 1 (and ids unique), drop after drop.
  - `ZeroBasedPastEndLeavesGap` shows that with 0-based orders such a drop leaves a gap.
  - A task dropped at index 1 of another column holding one task is sent with order 2.
  - A task dropped into an empty column is sent with order 1.
- **Short-circuiting.** Only a column drag dropped at its own index is short-circuited. A task drop always sends a mutation, even when the task lands where it started (`OnDragEnd`'s first postcondition).
- **Hover updates.** The model has no hover-time updates. The only reorders happen at drop time; the hover handler of `Task.tsx` is never wired up.
- **Success handling.** Nothing happens on success: the modify mutations neither reconcile with the server's answer nor refetch.
- **Column membership.** Tasks carry no column field. Membership is position inside a column's `tasks`, and the edit payload names both the old column (`selfColumnId`) and the new one (`columnId`).

## Model

| member | source | states |
|---|---|---|
| OrderModel.Moved | src/views/Board/components/Columns.tsx:98-123 | the moved sibling takes the target order; when moving down (old order above the target) the siblings in `[target, old)` rise by one, otherwise those in `(old, target]` drop by one, and every other sibling keeps its order |
| OrderModel.Closed | src/views/Board/components/Columns.tsx:212-224 | a sibling leaves: the others keep their relative position and those above its order drop by one |
| OrderModel.Opened | src/views/Board/components/Columns.tsx:229-234 | a sibling arrives last with order h: those at or above h rise by one, the others keep theirs |
| OrderModel.MoveKeepsDense | src/views/Board/components/Columns.tsx:98-123 | a move to a target inside `[lo, lo + n)` keeps distinct orders that fill `[lo, lo + n)` |
| OrderModel.CloseKeepsDense | src/views/Board/components/Columns.tsx:212-224 | after a sibling leaves, the rest are dense from the same base with one value fewer |
| OrderModel.OpenKeepsDense | src/views/Board/components/Columns.tsx:226-235 | an arrival with a target in `[lo, lo + n]` (inside the range or one past its end) keeps the orders dense with one value more |
| OrderModel.DenseCovers | src/views/Board/components/Columns.tsx:98-123 | dense orders have no gaps: every value of `[lo, lo + n)` is held by some sibling |
| OrderModel.DenseSameValues | src/views/Board/components/Columns.tsx:98-123 | two dense order lists of one length and base hold the same set of values |
| OrderModel.MoveToOwnOrder | src/views/Board/components/Columns.tsx:98-123 | moving a sibling to the order it holds changes no order |
| OrderModel.MoveThenMoveBack | src/views/Board/components/Columns.tsx:98-123 | with distinct orders, moving a sibling away and back restores every order |
| Reorder.ColumnIndex | src/views/Board/components/Columns.tsx:88 | the position of the first column with the id, or none when no column has it |
| Reorder.TaskIndex | src/views/Board/components/Columns.tsx:159-161 | the position of the first task with the id, or none when no task has it |
| Reorder.ReorderColumns | src/views/Board/components/Columns.tsx:98-123 | only `order` fields change; the dragged column gets the target; when moving down, columns in `[target, old)` rise by one, otherwise columns in `(old, target]` drop by one; the rest keep theirs |
| Reorder.ReorderTasks | src/views/Board/components/Columns.tsx:183-205 | the same shift rule over the tasks of one column, changing only `order` fields |
| Reorder.MoveColumn | src/views/Board/components/Columns.tsx:83-123 | no cached board gives none; board fields, positions, count and every column field except `order` are kept; an unknown column id returns the cache unchanged; otherwise the column with `edit.id` takes `edit.order` and, with d the old order of the first such column, the others in `[edit.order, d)` rise by one when moving down and those in `(d, edit.order]` drop by one otherwise |
| Reorder.MoveColumnShape | src/views/Board/components/Columns.tsx:83-123 | with unique column ids, the updater's board is the shift rule applied with the dragged column's old order, and its column orders are `Moved` of the old ones |
| Reorder.RemoveTask | src/views/Board/components/Columns.tsx:212-224 | the source column is no longer than before and holds no task with the dragged id |
| Reorder.RemoveTaskKeepsOthers | src/views/Board/components/Columns.tsx:212-224 | for any ids, the source column after removal holds exactly the lowered copies of the tasks with another id: each remaining task is one of them, and each of them remains |
| Reorder.InsertTask | src/views/Board/components/Columns.tsx:229-234 | the destination keeps its tasks in place with orders at or above the target raised by one, and the dragged task is appended with the target order |
| Reorder.MoveTaskWithinColumn | src/views/Board/components/Columns.tsx:177-207 | columns with another id come back unchanged; the column with the id gets its tasks shifted |
| Reorder.TransferTask | src/views/Board/components/Columns.tsx:208-239 | only `tasks` fields change; the source column loses the task, the destination gains it, other columns come back unchanged |
| Reorder.MoveTask | src/views/Board/components/Columns.tsx:154-240 | no cached board gives none; board fields, column count and every column field except `tasks` are kept; an unknown source column, or a first column with that id that holds no task with the edited id, returns the cache unchanged |
| Reorder.ReorderColumnsIsMoved | src/views/Board/components/Columns.tsx:98-123 | with unique ids the column orders after the shift are `Moved` of the orders before |
| Reorder.MoveColumnKeepsDense | src/views/Board/components/Columns.tsx:98-123 | a column move to a target inside the range keeps the column orders dense with the same set of values |
| Reorder.MoveColumnToOwnOrder | src/views/Board/components/Columns.tsx:98-123 | moving a column to the order it holds returns the same board |
| Reorder.MoveColumnThenBack | src/views/Board/components/Columns.tsx:98-123 | moving a column away and back to its old order returns the original board |
| Reorder.ReorderTasksIsMoved | src/views/Board/components/Columns.tsx:183-205 | with unique ids the task orders after the shift are `Moved` of the orders before |
| Reorder.TaskIndexOfUnique | src/views/Board/components/Columns.tsx:159-161 | with unique task ids the lookup finds the task at its own position |
| Reorder.MoveTaskWithinColumnKeepsDense | src/views/Board/components/Columns.tsx:177-207 | a same-column move keeps that column's task orders dense with the same values, and every other column comes back unchanged |
| Reorder.WithinColumnShape | src/views/Board/components/Columns.tsx:177-207 | with unique ids a same-column move replaces exactly the task's column, whose tasks get the shift |
| Reorder.MoveTaskToOwnOrder | src/views/Board/components/Columns.tsx:177-207 | a same-column move to the order the task holds returns the same board |
| Reorder.RemoveTaskAt | src/views/Board/components/Columns.tsx:212-224 | removing the task at position k leaves the others in their relative order, lowered above its order |
| Reorder.RemoveTaskIsClosed | src/views/Board/components/Columns.tsx:212-224 | the source column's orders after removal are `Closed` of the orders before |
| Reorder.TransferColumns | src/views/Board/components/Columns.tsx:208-239 | with unique ids a cross-column move replaces exactly the two columns: the source without the task, the destination with it appended |
| Reorder.RemoveKeepsDense | src/views/Board/components/Columns.tsx:212-224 | the source column keeps one task fewer with orders dense from the same base |
| Reorder.InsertKeepsDense | src/views/Board/components/Columns.tsx:226-235 | the destination keeps orders dense from the same base when the target is in its range or one past its end |
| Reorder.TransferKeepsDense | src/views/Board/components/Columns.tsx:208-239 | the source column stays dense with one task fewer, the destination stays dense with one task more when the target is in its range or one past its end, other columns are unchanged, and the board's task count is unchanged |
| Reorder.MoveTaskKeepsOrdersDense | src/views/Board/components/Columns.tsx:174-239 | any task move with a target in the destination's range keeps the column orders and every column's task orders dense |
| Reorder.RemoveTaskIds | src/views/Board/components/Columns.tsx:212-224 | the source column loses exactly one id, the dragged task's |
| Reorder.MoveTaskKeepsTaskIds | src/views/Board/components/Columns.tsx:157-239 | a task move between columns that exist keeps the multiset of task ids on the board: no task is lost or duplicated |
| Reorder.TransferToMissingColumnLosesTask | src/views/Board/components/Columns.tsx:208-239 | an edit naming a destination column that is not on the board removes the task from its source and inserts it nowhere, so the board holds one task fewer |
| Reorder.MoveColumnKeepsConsistent | src/views/Board/components/Columns.tsx:83-123 | a column move to an order in `[1, 1 + n)` keeps ids unique across the board and every order list dense from 1 |
| Reorder.MoveTaskKeepsConsistent | src/views/Board/components/Columns.tsx:157-239 | a task move between existing columns, to an order in the destination's range, keeps ids unique across the board and every order list dense from 1 |
| Normalise.SortBy | src/views/Board/Board.tsx:27 | the result is sorted by the key and a permutation of the input |
| Normalise.SortStable | src/views/Board/Board.tsx:27 | elements with equal keys keep their input order, as with the stable `Array.prototype.sort` |
| Normalise.SortOfSorted | src/views/Board/Board.tsx:27 | sorting a sorted list returns it unchanged |
| Normalise.StableSortUnique | src/views/Board/Board.tsx:27 | any sorted list that keeps equal keys in input order is the sort's result |
| Normalise.WithSortedTasks | src/views/Board/Board.tsx:24-28 | a column keeps every field but `tasks`, whose tasks are sorted by order and a permutation of the input tasks |
| Normalise.SortEachColumn | src/views/Board/Board.tsx:24-28 | every column, at its position, has its tasks sorted |
| Normalise.Select | src/views/Board/Board.tsx:21-32 | id, title and description are kept; the columns are a permutation of the input columns with sorted tasks; columns are sorted by order and so is every column's task list |
| Normalise.SelectColumnOrigin | src/views/Board/Board.tsx:21-32 | every rendered column is an input column with its tasks sorted |
| Normalise.SelectStable | src/views/Board/Board.tsx:21-32 | columns, and a column's tasks, that share an order keep their input order |
| Normalise.SelectOfNormalised | src/views/Board/Board.tsx:21-32 | already-sorted data comes back unchanged |
| Normalise.SelectIdempotent | src/views/Board/Board.tsx:21-32 | selecting twice is selecting once |
| ProfileValidation.ValidateLogin | src/views/EditProfile/EditProfile.tsx:120-136 | each message key is returned exactly when its check is the first to fail (empty; not only `[A-Za-z0-9_]`; not starting with `[A-Z]`; shorter than 4; longer than 20); accepted exactly when all pass |
| ProfileValidation.ValidateName | src/views/EditProfile/EditProfile.tsx:152-168 | each key exactly when its check is the first to fail, the capital first letter (Latin or Cyrillic) before the letters-only rule; accepted exactly when all pass |
| ProfileValidation.ValidatePassword | src/views/EditProfile/EditProfile.tsx:186-205 | each key exactly when its check is the first to fail (empty; no letter; no digit; no underscore; shorter than 6; longer than 20); accepted exactly when all pass |
| ProfileValidation.AcceptedAtMost20 | src/views/EditProfile/EditProfile.tsx:120-205 | no accepted login, name or password is longer than 20 code units |
| ProfileValidation.NameChecksCapitalFirst | src/views/EditProfile/EditProfile.tsx:156-161 | the name "1abc" gets the capital-letter key |
| ProfileValidation.LoginChecksCharsetFirst | src/views/EditProfile/EditProfile.tsx:124-129 | the login "a-bc" gets the character-set key, the login "1abc" the capital-letter key |
| ProfileValidation.CyrillicNames | src/views/EditProfile/EditProfile.tsx:156-161 | a name starting with a Cyrillic capital is accepted; one starting with Ё, outside А-Я, is not |
| ProfileValidation.PasswordAcceptsAnyExtraUnit | src/views/EditProfile/EditProfile.tsx:186-205 | appending any code unit to an accepted password shorter than 20 gives an accepted password |
| DragDrop.OnBoardDragEnd | src/views/Board/components/Columns.tsx:252-263 | a column dropped at its own index sends nothing; a drop with either index past the last column throws; otherwise the column at the source index is sent with its id and title and the order of the column at the destination index |
| DragDrop.OnColumnDragEnd | src/views/Board/components/Columns.tsx:265-282 | never sends nothing; yields `Fault` exactly when a column is missing, a same-column drop lands past the last task (both throw), or the source index holds no task (see "## Left out"); otherwise sends the dragged task's fields with the order of the task at the drop index (or `index + 1` past the end), the destination as `columnId` and the source as `selfColumnId` |
| DragDrop.OnDragEnd | src/views/Board/components/Columns.tsx:252-295 | nothing is sent exactly for a drop outside every droppable or a column dropped at its own index; a moved column asks for the order of the column at the drop index; a moved task asks for the order of the task at the drop index, or `index + 1` past the end, and names both columns |
| DragDrop.LibraryDropNeverFaults | src/views/Board/components/Columns.tsx:252-282 | a drop whose positions exist on the rendered board never makes a handler throw |
| DragDrop.ColumnDropKeepsConsistent | src/views/Board/components/Columns.tsx:252-262 | a column drop on the rendered board asks for an order in the cached board's range, so it keeps the cached board consistent: ids unique, every order list dense from 1 |
| DragDrop.DraggedTaskIsCached | src/views/Board/components/Columns.tsx:265-268 | the task a drop names is a task of the cached source column |
| DragDrop.TaskDropOrderInRange | src/views/Board/components/Columns.tsx:271-273 | the order a task drop asks for lies in the destination's 1-based range, or one past its end for a drop from another column |
| DragDrop.TaskDropKeepsConsistent | src/views/Board/components/Columns.tsx:265-282 | a task drop on the rendered board keeps the cached board consistent: ids unique, every order list dense from 1 |
| DragDrop.DropKeepsConsistent | src/views/Board/components/Columns.tsx:284-295 | with unique ids and 1-based dense orders, no drop the library can report throws, and every drop leaves ids unique and all order lists dense from 1, so this holds after any sequence of drops |
| DragDrop.ZeroBasedPastEndLeavesGap | src/views/Board/components/Columns.tsx:272-273 | with 0-based orders, a drop after the last task of another column asks for n + 1 and leaves that column with a gap |
| Cache.BoardCache.View | src/views/Board/Board.tsx:14-33 | the page renders a board exactly when one is cached, and what it renders is `Select` of the cached board, so it is normalised with as many columns |
| Cache.BoardCache.ApplyColumnEdit | src/views/Board/components/Columns.tsx:80-127 | the snapshot returned is the entry before the update, and the entry becomes the moved board |
| Cache.BoardCache.ApplyTaskEdit | src/views/Board/components/Columns.tsx:151-244 | the snapshot returned is the entry before the update, and the entry becomes the moved board |
| Cache.BoardCache.Restore | src/views/Board/components/Columns.tsx:128-131 | the entry becomes exactly the snapshot |
| Cache.BoardCache.EditColumn | src/views/Board/components/Columns.tsx:68-133 | after the server answers, the entry is the moved board on success and exactly the board before the mutation on failure |
| Cache.BoardCache.EditTask | src/views/Board/components/Columns.tsx:135-250 | after the server answers, the entry is the moved board on success and exactly the board before the mutation on failure |
| Cache.BoardCache.Drop | src/views/Board/components/Columns.tsx:284-295 | the payload comes from the rendered board; a drop that sends nothing or throws leaves the cache alone; when the cached board is consistent (ids unique across the board, orders dense from 1) and the drop is one the library can report, the cache is consistent afterwards whatever the server answers |

## Left out

- React rendering, react-beautiful-dnd gesture handling and the react-query machinery are not modelled. This covers `useQuery`, `useMutation`, `async` timing and the toasts. The cache is a plain field, and each mutation runs from `onMutate` to settlement in one method.
- The network: the outcome of each `axios.put` is the boolean `serverAccepts`, and the server's answer on success is not used, just as the client does not use it.
- The `columnsLocal` object (`Columns.tsx:57-66`) is modelled as the sequence of rendered columns, looked up by first matching id. `Object.values` follows property-creation order only for ids that are not integer-like. With integer-like ids, or with two columns sharing an id, the object and the model can differ.
- JavaScript numbers are modelled as unbounded integers: orders are whole numbers in practice, and nothing overflows.
- `id?` and `boardId?` are optional in the payload types. The model always has an id; an absent id is found nowhere, exactly like an unknown id.
- `OnColumnDragEnd` (and through it `OnDragEnd`): when the source index names no task, `onColumnDragEnd` spreads `undefined` and sends a payload without id, title or text. The model reports this case as `Fault` rather than building that payload.
- `Consistent` assumes task ids are unique across the whole board. The server assigns ids, and the client never checks them; the model takes this as given for the board it first fetches.
- The message keys are an enumeration. The source spells the "shorter than 4", "shorter than 6" and "longer than 20" keys with a Cyrillic `С` (U+0421) after `field`, and the translation files are not part of this model.
- The form library's own rules and the title-edit guards in `ColumnTitle.tsx` and `TaskTitle.tsx` are not modelled, nor are the sign-in, sign-up and board forms.
- The hover handler of `Task.tsx` is not modelled: `Column.tsx` never passes it its callbacks.
- Concurrency between in-flight mutations and refetches is not modelled: the client does nothing to order them.
