# Kanban board model

A Dafny model of the core of `kanbanboard`. This is a single-file Tkinter application (`main.py`) that keeps a board of three columns, "To Do", "In Progress" and "Done". Each column holds an ordered list of tasks.

The model has four modules:

- `Kanban` (kanban.dfy) models the board state the way the program keeps it, as objects updated in place.
  - `Task` has a mutable `status`.
  - `Column` has a mutable list `tasks`, a `seq<Task>`.
  - `Board` has a dictionary `columns` from column name to column. The dictionary itself is never reassigned.
  - `Column.RemoveTask` is a loop with an early return, as in the source. The first task with a matching title is taken out by identity, which is what Python's `list.remove` does on objects that have no `__eq__`.
- `BoardSpec` (board_spec.dfy) is the board as a value: a map from column name to a sequence of `Card`s, the task fields at one instant.
  - `Move` and `AddTask` are the value-level operations.
  - The promises of the board are proved as lemmas about them:
    - the key set stays fixed;
    - a move finds the first match by title;
    - a move neither loses nor duplicates a task;
    - a task's status names the column that holds it, on every board reachable from a fresh one.
  - The heap methods are tied to these functions through `Board.View()`.
- `Text` (text.dfy) is Python's `str.strip()`. Whitespace is the exact code-point set of `str.isspace`.
- `App` (app.dfy) holds the two rules of the window that decide what reaches the board:
  - the next-column rule of the move buttons;
  - the blank-title check of the "Add Task" form, as a method over a `Board`.

Python's `None` for `assigned_user` is `Option<string>`. A missing task returned by `remove_task` is `null` (`Task?`). A `Task` object is always truthy, so `if task_to_move:` (main.py:55) is a null check.

## Model

| member | source | states |
|---|---|---|
| Kanban.Task.constructor | main.py:9-13 | A new task keeps the given title, description and assigned user, and its status is "To Do". |
| Kanban.TaskTitles | main.py:31-32 | The titles of a task list, position by position. This is what the search of `remove_task` compares against. |
| Kanban.Column.constructor | main.py:23-25 | A new column has the given name and no tasks. |
| Kanban.Column.AddTask | main.py:27-28 | The task is appended at the tail, with no duplicate check. |
| Kanban.Column.RemoveTask | main.py:30-35 | Returns null exactly when no task has the title, and then nothing changes. Otherwise it returns the first task with that title, and the list loses exactly that position while the rest keep their order. |
| Kanban.Board.constructor | main.py:42-47 | The board has exactly the keys "To Do", "In Progress" and "Done", each column is fresh and named after its key, and its value view is three empty columns. |
| Kanban.Board.AddTask | main.py:49-50 | The task object is appended to "To Do" and the other columns are unchanged. The value view becomes `BoardSpec.AddTask` of the old view. The multiset of all tasks gains exactly this task. Distinctness is kept when the task was not already on the board. |
| Kanban.Board.MoveTask | main.py:52-59 | Succeeds exactly when both column names are keys and `from` holds a task with the title. On failure no column or task changes. On success the first such task leaves `from`, gets `to` as its status and is appended to `to`, and every other task keeps its status. Columns other than `from` and `to` never change. |
| Kanban.Board.MoveTaskIsMove | main.py:52-59 | From `MoveTask`'s contract: the columns are `Transfer` of the old columns, the multiset of all tasks is kept, and the result flag equals that of `BoardSpec.Move` on the old view. When no task object appeared twice, none does after the move and the new view is exactly `BoardSpec.Move`'s board. |
| Kanban.Board.MovedIsMove | main.py:54-57 | A transfer of one task object between the columns, with its status set to the target column, keeps the multiset of tasks. On a board without repeated objects it keeps that property and produces the value-level transfer of the restamped card. |
| Kanban.Board.MovedContents | main.py:54-57 | The per-column new state of a successful move is the map-level `Transfer` of the old columns. |
| Kanban.Board.Unmoved | main.py:59 | When nothing changed, the columns and the value view are the old ones. |
| Kanban.Board.OldCards | main.py:56 | Every task other than the moved one shows the same card after the move as before it. |
| Kanban.Board.MovedView | main.py:54-57 | Given the transferred columns and unchanged other tasks, the value view is the transfer of the old view with the moved card restamped. |
| Kanban.RemovedCards | main.py:33 | The cards of a list with one task removed are the old cards with that position removed, provided the moved task appears nowhere else in the list. |
| Kanban.KeptCards | main.py:56 | A list that does not hold the moved task shows the same cards as before. |
| Kanban.CardsOfAppend | main.py:57 | Appending a task appends its card. |
| Kanban.CardsOf | main.py:9-13 | Turns a column of the heap board into a column of the value board: the fields of each task at this instant, position by position, with the same titles as the tasks. |
| BoardSpec.Titles | main.py:31-32 | The titles of a card list, position by position. |
| BoardSpec.FirstMatch | main.py:31-32 | None exactly when the title is absent. Otherwise the position of a card with that title, with no earlier card having it. |
| BoardSpec.RemoveAt | main.py:33 | One element shorter. The elements before `i` keep their positions and the later ones shift down by one. |
| BoardSpec.RemoveFirst | main.py:33 | Python's `list.remove(x)` on a list holding `x`: the list becomes one element shorter. `RemoveFirstAt` pins down which element goes. |
| BoardSpec.RemoveFirstAt | main.py:31-33 | Python's `list.remove(x)` removes exactly position `i` when `i` is the first occurrence of `x`. |
| BoardSpec.RemoveAtMultiset | main.py:33 | Removing position `i` takes exactly that one element out of the multiset. |
| BoardSpec.Transfer | main.py:54-57 | One element leaves position `i` of `from` and is appended to `to`, which may be `from` itself. Other lists are unchanged and the keys are kept. |
| BoardSpec.FlattenUpdate | main.py:43-47 | Replacing one column's list changes the multiset of all elements by exactly the two lists. |
| BoardSpec.TransferMultiset | main.py:54-57 | A transfer keeps the multiset of all elements on the board. |
| BoardSpec.TransferUnique | main.py:54-57 | A transfer keeps the board free of repeated elements. |
| BoardSpec.HeldOnce | main.py:33 | On a board without repeats, the element at a position is not elsewhere in its own list and is in no other list. |
| BoardSpec.NewBoard | main.py:42-47 | A fresh board has the three keys and every column is empty. |
| BoardSpec.NewCard | main.py:9-13 | A new card has status "To Do" and keeps the given fields. |
| BoardSpec.AddTask | main.py:49-50 | `Board.add_task` as a value: the keys are kept, and "To Do" keeps its old cards in order and gains the new card at its tail. |
| BoardSpec.Move | main.py:52-59 | `Board.move_task` as a value: the keys are kept, a failed move returns the board unchanged, and after a successful move the last card of `to` has status `to`. |
| BoardSpec.AddTaskAppends | main.py:49-50 | Adding keeps the keys, appends the card to "To Do", leaves the other two columns alone and adds one to the task count. |
| BoardSpec.AddTaskKeepsConsistent | main.py:49-50 | Adding a "To Do" card keeps every status equal to its column. |
| BoardSpec.MoveFailure | main.py:52-59 | A move fails exactly when a column name is unknown or `from` has no card with the title. A failed move leaves the board unchanged. |
| BoardSpec.MoveSuccess | main.py:52-59 | A move of the first card with the title succeeds. The card leaves `from`, the rest keep their order, and the card is appended to `to` with status `to`. No other column changes and the keys are kept. |
| BoardSpec.TitlesAppend | main.py:57 | Appending a card appends its title. |
| BoardSpec.TitlesRemoveAt | main.py:33 | Removing a card removes its title at the same position. |
| BoardSpec.RemovedListBag | main.py:33 | Removing a card takes exactly its title out of the list's title bag. |
| BoardSpec.BagUpdate | main.py:43-47 | Replacing one column changes the board's title bag and task count by exactly the two lists. |
| BoardSpec.MoveConserves | main.py:52-59 | A move never loses or duplicates a task: the task count and the multiset of titles on the board are kept. |
| BoardSpec.BagTransfer | main.py:54-57 | Bookkeeping for the title bag when one title leaves a list and enters another. |
| BoardSpec.MoveKeepsConsistent | main.py:56 | A move keeps every task's status equal to the column that holds it. |
| BoardSpec.Step | main.py:49-59 | One add or move keeps the board's three keys. |
| BoardSpec.Run | main.py:42-59 | Every board reachable from a fresh one by adds and moves has the three keys. |
| BoardSpec.RunConsistent | main.py:42-59 | On every reachable board, each task's status names the column that holds it. |
| BoardSpec.RunCount | main.py:42-59 | On every reachable board, the number of tasks is the number of adds. |
| BoardSpec.MoveTwiceScenario | main.py:49-59 | Add "X", then move it from "To Do" to "In Progress": the move succeeds and the task has status "In Progress". Repeating the same move fails and changes nothing. |
| Text.IsSpace | main.py:130 | The whitespace of `str.strip()`, which is what `str.isspace` accepts: the code points 0x09-0x0D, 0x1C-0x20, 0x85, 0xA0, 0x1680, 0x2000-0x200A, 0x2028, 0x2029, 0x202F, 0x205F and 0x3000. |
| Text.IsSpaceAscii | main.py:130 | Among ASCII characters, exactly tab, line feed, vertical tab, form feed, carriage return, the four information separators and the space are whitespace. |
| Text.LeadingSpace | main.py:130 | The longest all-whitespace prefix: it is whitespace, and the next character is not. |
| Text.TrailingSpace | main.py:130 | The longest all-whitespace suffix: it is whitespace, and the character before it is not. |
| Text.Strip | main.py:130-131 | Empty exactly when the input is all whitespace. Otherwise the result starts and ends with non-whitespace. It is the input's characters right after the leading whitespace, and everything after it is whitespace. |
| Text.StripPadded | main.py:130-131 | Stripping whitespace padding from a string that neither starts nor ends with whitespace gives that string back. |
| Text.LeadingSpaceOfPadded | main.py:130-131 | The leading whitespace of a padded string is exactly the padding. |
| Text.TrailingSpaceOfPadded | main.py:130-131 | The trailing whitespace of a padded string is exactly the padding. |
| Text.StripIdempotent | main.py:130-131 | Stripping twice is stripping once. |
| App.NextColumn | main.py:120-121 | Walking the workflow "To Do", "In Progress", "Done": each column leads to the next one, "Done" leads nowhere, and any other name leads to "Done". |
| App.NextColumnWalk | main.py:120-121 | From any board column, the next column is a board column, and at most two moves reach "Done". |
| App.ForwardMoveSucceeds | main.py:115-123 | The move a button requests always succeeds. It moves the first task in the column with the button's title, which comes no later than the task shown. That task leaves the column and is appended to the next column with the next column as its status. |
| App.SubmitTask | main.py:126-138 | Nothing is created and the board is unchanged exactly when the typed title is all whitespace. Otherwise a fresh task with the stripped title and description, no assigned user and status "To Do" is appended to "To Do", in the heap and in the value view. It never introduces a repeated task. |
| App.AddNewTask | main.py:137-138 | A fresh task with the given title and description, no assigned user and status "To Do" is appended to "To Do", in the heap and in the value view. It never introduces a repeated task. |
| App.AcceptedTitle | main.py:130-137 | An accepted title is non-empty and is the typed text with exactly its surrounding whitespace removed. Typing it with any other whitespace padding gives the same title. |

## Left out

- The Tkinter window: widgets, layout and redrawing (`KanbanApp.__init__`, `setup_ui` and the drawing in `update_column_ui`, main.py:62-119). Only the next-column rule (main.py:120-121) and the title check of `add_task` are modelled. Clearing the entry fields (main.py:142-143) is UI only.
- The error dialogs (`messagebox.showerror`, main.py:134 and 153) are I/O. The model keeps only the branch that leads to them: `SubmitTask` returns null, and `MoveTask` returns false.
- `KanbanApp.move_task` (main.py:145-153): it forwards to `Board.move_task` and then redraws or shows an error, so its logic is `Board.MoveTask`.
- `KanbanApp.run`, `mainloop` and the module-level start (main.py:155-164): these are the event loop.
- `Task.__str__` (main.py:15-16): display only.
- `main.py` has no task priorities, deadlines, JSON persistence or deadline alerts, so the model has none.
- `assigned_user` is carried as an opaque optional string. No code in `main.py` reads it or sets it to anything but `None`.
- Kanban.Board.MoveTaskIsMove: the value view equals `BoardSpec.Move` only when no task object is held twice on the board (`Distinct()`). The source does not rule out adding the same object twice. With an aliased task, restamping one entry restamps both, and the value-level model cannot express that.
- Text.Strip: whitespace follows `str.isspace` code point by code point. There is no Unicode normalisation and no treatment of surrogates.
