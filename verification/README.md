# Mouse dynamics data logger — a Dafny model

This project models the core of a task-based mouse-dynamics data logger: a
desktop application that records pointer movements while a user performs
four on-screen tasks. The recordings are saved in fixed-size blocks, each
tagged with a username and a "Genuine"/"Imposter" label.

Four modules:

- `Common` (`common.dfy`): `Option` and `Result`.
- `Recorder` (`recorder.dfy`): the motion recorder `MouseDataCollector`, as
  class `Collector`.
  - Each pointer sample at `(x, y)` is compared with the last position. If
    the pointer moved, the pair `[|dx|, |dy|]` is appended to the event
    buffer.
  - Once the buffer holds 256 scalars (128 displacements × 2), its first 256
    are cut off and written as one CSV row: the 256 magnitudes, then the
    username, then the label.
  - The CSV file is the field `rows`. The status and counter callbacks are
    the logs `statusLog` and `counterLog`.
  - A ghost field `recorded` holds every scalar ever appended. The class
    invariant ties the buffer and the rows to it through the pure functions
    `Blocks` and `Pending`. The lemmas on those functions prove that nothing
    is lost and that order is kept.
- `Tasks` (`tasks.dfy`): the task canvas `TaskCanvas`.
  - A cyclic cursor runs over the four tasks: left-click the triangle,
    right-click the reversed triangle, double-click the square, drag the
    circle onto the goal.
  - Three click handlers advance the cursor when the tag under the pointer
    matches the current task. A press/drag/release sub-machine moves the
    circle and checks where it is dropped.
  - The canvas items are a map from tag to bounding box, with `real`
    coordinates. The item under the pointer is an input: `Some(tag)`, or
    `None` when no tagged item is there. The application callback is the log
    `appLog` of (kind, message) pairs.
- `Session` (`session.dfy`): two pure parts of the application window. One is
  the input check run before a session starts (strip both entries, username
  non-empty, duration all digits). The other is the countdown arithmetic
  (`divmod` by 60, then decrement).

Behaviour of the source worth noting:

- The buffer is drained with a single `if`, not a loop. One move adds
  exactly 2 scalars and the buffer stays below 256, so one drain per call is
  enough. `Collector.BufferShape` and `Collector.KeptValid` prove this.
- `start` and `stop` have no idempotence guards. Every `Stop` logs a
  "stopped" status. `Start` sets the reference position again and leaves the
  buffer as it is.
- `stop` does not clear the partially filled buffer. It is simply never
  saved.
- The shapes sit at fixed fractions of the canvas size. Nothing is placed at
  random, and there is no minimum distance between the circle and the goal.
- A duration of `"0"` passes the input check. Its first countdown tick (line 262) already stops the session, before the collector is created and started (lines 264-265). That stop finds no new collector to stop, and the new collector then records with no timer running. This ordering is not modelled.
- A session of m minutes shows a time on m × 60 ticks, the first showing m:00. `Session.CountdownLength` proves this.

## Model

| member | source | states |
|---|---|---|
| `Recorder.Displacement` | MouseDataCollection/DataCollectionApplication.py:33-37 | A sample adds nothing exactly when the pointer did not move. Otherwise it adds two scalars, the absolute deltas on x and y, and at least one of them is positive. |
| `Recorder.DeltasCountMoves` | MouseDataCollection/DataCollectionApplication.py:31-39 | Along any path of samples, the buffer gets two scalars per transition that moves the pointer. No recorded pair is (0, 0). |
| `Recorder.MovingSessionBlocks` | MouseDataCollection/DataCollectionApplication.py:31-59 | If every one of n samples moves the pointer, n / 128 blocks are formed and n mod 128 displacements are left pending. |
| `Recorder.OneHundredThirtySamples` | MouseDataCollection/DataCollectionApplication.py:31-59 | 130 moving samples save exactly one block and leave two displacements pending. |
| `Recorder.BlocksPartition` | MouseDataCollection/DataCollectionApplication.py:50-53 | Cutting a stream into blocks loses nothing and keeps order: the blocks followed by the remainder give back the stream. There are len / 256 blocks of exactly 256 scalars, and the remainder is shorter than a block. |
| `Recorder.BlocksAppend` | MouseDataCollection/DataCollectionApplication.py:37-53 | Appending to the stream never changes blocks already cut. Only the pending remainder takes part in forming new blocks. |
| `Recorder.RowRoundTrip` | MouseDataCollection/DataCollectionApplication.py:52-57 | A saved row has 258 fields: the block, then the username, then the label. Its first 256 fields read back as the block. |
| `Recorder.NoLoss` | MouseDataCollection/DataCollectionApplication.py:37-57 | The first 256 fields of all saved rows, followed by the pending buffer, are exactly the sequence of recorded scalars. |
| `Recorder.Collector.Invariants` | MouseDataCollection/DataCollectionApplication.py:31-59 | In every reachable state the buffer length is even and below 256, and the saved rows plus the buffer equal everything recorded. The block count equals the number of rows. |
| `Recorder.Collector.constructor` | MouseDataCollection/DataCollectionApplication.py:17-29 | A new collector is idle with an empty buffer, no last position and no blocks. It writes to `mousedatacollection/sapimouse_ABS_dx_dy_<duration>min.csv`, joined with `/` as `os.path.join` does on POSIX. |
| `Recorder.Collector.OnMove` | MouseDataCollection/DataCollectionApplication.py:31-40 | When not collecting, nothing changes and no callback fires. Otherwise the last position becomes (x, y) and a moving sample appends its pair. A full buffer gives up its first 256 scalars as one row, with the block count +1 and one status message. The counter callback then gets (buffer length / 2, block count) after the drain. The invariant is kept. |
| `Recorder.Collector.OnClick` | MouseDataCollection/DataCollectionApplication.py:42-44 | A click has exactly the effect of a move to its position. |
| `Recorder.Collector.OnScroll` | MouseDataCollection/DataCollectionApplication.py:46-48 | A scroll has exactly the effect of a move to its position. |
| `Recorder.Collector.CheckBlockSize` | MouseDataCollection/DataCollectionApplication.py:50-59 | Below 256 scalars nothing changes. Otherwise exactly the first 256 are removed and saved as one row with the username and label, the block count rises by one, and one "saved block" status names the new count. |
| `Recorder.Collector.Start` | MouseDataCollection/DataCollectionApplication.py:61-67 | Collection becomes active from the given initial position and logs a "collecting" status. The buffer, the rows and the count are untouched. |
| `Recorder.Feed` | MouseDataCollection/DataCollectionApplication.py:31-40 | Delivering a path of samples to an active collector, one move each, records exactly the displacements of the path from the last position. The collector stays valid and ends at the path's last sample. The counter callback fires once per sample, last with (buffer length / 2, block count). |
| `Recorder.RecordMovingSession` | MouseDataCollection/DataCollectionApplication.py:17-67 | A new collector, started and then fed n samples that all move the pointer, has saved n / 128 rows. Its counter callback last reports (n mod 128, n / 128), and its first status is "collecting". |
| `Recorder.RecordOneHundredThirtySamples` | MouseDataCollection/DataCollectionApplication.py:17-67 | After 130 moving samples exactly one row is saved, and the counter callback's last report is (2, 1). |
| `Recorder.Collector.Stop` | MouseDataCollection/DataCollectionApplication.py:69-72 | Collection becomes inactive and a "stopped" status names the output file, on every call. The buffer is kept, not flushed. |
| `Tasks.DisplayNameShape` | MouseDataCollection/DataCollectionApplication.py:101 | A task's display name has the same length as its name. Underscores become spaces, each word's first letter is capitalised, and the other letters are kept. |
| `Tasks.DropOnGoal` | MouseDataCollection/DataCollectionApplication.py:164-168 | Moving the drawn circle by (dx, dy) and dropping it counts exactly when dx is within 25 of w/2 and dy is within 25 of 0, with strict bounds: a drop on the goal's edge fails. |
| `Tasks.DragTelescopes` | MouseDataCollection/DataCollectionApplication.py:151-157 | Over a sequence of drag events, the per-event deltas add up. The item ends translated by the last pointer position minus the press position. |
| `Tasks.CycleClosedForm` | MouseDataCollection/DataCollectionApplication.py:93-99 | After n advances from index i the cursor is at (i + n) mod 4, and "task_complete" has fired (i + n) div 4 times. This holds from every index, including the -1 each session starts from. |
| `Tasks.FullCycleWrapsOnce` | MouseDataCollection/DataCollectionApplication.py:93-99 | Completing the four tasks in order returns to the first task, with exactly one "task_complete". From a session's start at -1, the first next_task and four completions get there. |
| `Tasks.ReentrantBeforeWrap` | MouseDataCollection/DataCollectionApplication.py:93-101 | Below the wrap, next_task with the application's callback moves one step and announces the new task. |
| `Tasks.ReentrantNextTask` | MouseDataCollection/DataCollectionApplication.py:93-101 | next_task as written, with the application's callback plugged in: a "task_complete" re-enters next_task before the index is reset. Within a bound on nested calls, a call returns only when it does not wrap, and then it has moved exactly one step. |
| `Tasks.ReentryNeverReturns` | MouseDataCollection/DataCollectionApplication.py:224-229 | At the wrap, next_task with the application's re-entrant callback never returns, whatever bound on nested calls is allowed. Python's recursion limit is such a bound, so the call ends in `RecursionError`. |
| `Tasks.CompleteTasks` | MouseDataCollection/DataCollectionApplication.py:93-102 | n calls of next_task on a canvas move the cursor as `Cycle` says and add as many "task_complete" notifications as `Cycle` counts wraps. Earlier notifications are kept, and after at least one call the canvas shows the current task's shapes. |
| `Tasks.CompleteFirstCycle` | MouseDataCollection/DataCollectionApplication.py:79-102 | On a new canvas, the first next_task and four completed tasks bring the cursor back to the first task. Exactly one "task_complete" has fired, and the left-click triangle task's shapes are shown. |
| `Tasks.DragThrough` | MouseDataCollection/DataCollectionApplication.py:151-157 | Delivering a path of drag events to a canvas with a drag in progress leaves the circle where `DragAlong` puts it. The drag's origin, the task index and the callback log are kept. |
| `Tasks.PressAndDrag` | MouseDataCollection/DataCollectionApplication.py:125-157 | In the drag task, a press on the circle followed by a non-empty path of drag events moves the circle by the last pointer position minus the press position. |
| `Tasks.TaskCanvas.constructor` | MouseDataCollection/DataCollectionApplication.py:76-91 | A new canvas has index -1, no items, no drag and an empty callback log. |
| `Tasks.TaskCanvas.NextTask` | MouseDataCollection/DataCollectionApplication.py:93-102 | The index moves to (index + 1) mod 4 and stays in [0, 4). On the wrap "task_complete" fires first. Then "new_task" announces the new task's display name, and the canvas shows exactly that task's shapes. |
| `Tasks.TaskCanvas.DrawShapesForTask` | MouseDataCollection/DataCollectionApplication.py:104-122 | Adds the task's tagged shapes at their fixed fractions of the canvas size. |
| `Tasks.TaskCanvas.OnPress` | MouseDataCollection/DataCollectionApplication.py:125-135 | A triangle hit during the left-click task advances. A circle hit during the drag task starts a drag at the press position and records that position and the circle's box as the drag's origin. Anything else, including no item, changes nothing. |
| `Tasks.TaskCanvas.OnRightClick` | MouseDataCollection/DataCollectionApplication.py:137-142 | Advances exactly when the reversed triangle is hit during its task; otherwise nothing changes. |
| `Tasks.TaskCanvas.OnDoubleClick` | MouseDataCollection/DataCollectionApplication.py:144-149 | Advances exactly when the square is hit during its task; otherwise nothing changes. |
| `Tasks.TaskCanvas.OnDrag` | MouseDataCollection/DataCollectionApplication.py:151-157 | With no drag, nothing changes. Otherwise the dragged item moves by the pointer delta since the last event, and the drag's origin is kept. The invariant keeps the item's total move equal to the current position minus the press position. |
| `Tasks.TaskCanvas.OnRelease` | MouseDataCollection/DataCollectionApplication.py:159-171 | With no drag, nothing changes. Otherwise the drag always ends. The task advances exactly when the item's centre is strictly inside the goal's box and the task is the drag task; otherwise the item stays where it was dropped. |
| `Session.StripRemovesOnlySpaces` | MouseDataCollection/DataCollectionApplication.py:249-250 | Stripping keeps a contiguous middle part of the entry and removes only whitespace before and after it. |
| `Session.StripTrimsBothEnds` | MouseDataCollection/DataCollectionApplication.py:249-250 | What stripping keeps neither starts nor ends with whitespace. An entry strips to empty exactly when it is all whitespace. |
| `Session.StartCollection` | MouseDataCollection/DataCollectionApplication.py:248-261 | The input is accepted exactly when the stripped username is non-empty and the stripped duration is all digits. Rejection carries the error message. On acceptance the countdown starts at the given minutes × 60 seconds. |
| `Session.Countdown` | MouseDataCollection/DataCollectionApplication.py:237-243 | A tick shows a time exactly when time remains. The shown minutes × 60 + seconds equal the remaining time, the seconds are below 60, and the remaining time drops by one. |
| `Session.CountdownLength` | MouseDataCollection/DataCollectionApplication.py:237-246 | A session of m minutes shows a time on exactly m × 60 ticks before time is up. The first of those ticks shows m:00. |
| `Session.ZeroDurationAccepted` | MouseDataCollection/DataCollectionApplication.py:252-261 | A duration of "0" is accepted with a countdown of 0 seconds, which is up at the first tick. |

## Left out

- The pynput mouse listener and controller, and the background thread that delivers events, are not modelled. `Start` takes the initial pointer position as a parameter. Events arrive as sequential method calls, so races between the listener thread and the Tk loop cannot be expressed.
- Creating the output folder and writing the CSV file (including quoting) are not modelled. A saved row is appended to the in-memory sequence `rows`.
- `Recorder.NoLoss` holds only when every write succeeds. In the source the block is cut from the buffer before the file is opened. A failing `open` or `writerow` therefore loses that block, leaves the block count unchanged, and raises out of the listener callback. Failed writes are not modelled.
- `Recorder.Collector.constructor` joins the folder and file name with `/`, as `os.path.join` does on POSIX. Other path separators are not modelled.
- Status messages are a datatype carrying the values they format (count, username, file name), not rendered text.
- Tk widget construction, layout and canvas sizing (`update_idletasks`, `winfo_width`/`winfo_height`) are not modelled. The canvas size is fixed when the canvas is built. Polygons and ovals are represented by their bounding boxes. The text labels carry no task tag and appear only as a `None` hit. In Tk the item under the pointer carries the automatic tag `current`, so a label's first tag is `current` and no handler branch matches it.
- `root.after` scheduling and `after_cancel`, the timer label text, and the rest of `MouseApp.stop_collection` and `start_collection` are not modelled. That includes the widget states, the reset of the canvas index to -1, and the order in which the countdown and the collector are started.
- The class `TaskCanvas` logs application callbacks without re-entering `next_task`. The re-entrant callback of `MouseApp.app_callback` is modelled only by `Tasks.ReentrantNextTask`, which returns `None` when its bound on nested calls runs out; see Findings. The `RecursionError` and the state it leaves behind are not modelled.
- Pointer coordinates are integers. Platforms where pynput reports fractional coordinates are not covered.
- `strip`, `isdigit` and `title` are modelled on ASCII only. Unicode whitespace, Unicode digits and non-ASCII letters are not covered.
- `Recorder.Collector.OnClick`: the button and pressed flag are accepted and ignored, as in the source. `Recorder.Collector.OnScroll` ignores the scroll amounts in the same way.

## Findings

| source | as written | input that shows it | evidently intended | confidence | as-written member | corrected member |
|---|---|---|---|---|---|---|
| MouseDataCollection/DataCollectionApplication.py:96-98 | On the wrap, `next_task` calls `app_callback("task_complete", …)` before resetting the index to 0. `MouseApp.app_callback` (line 229) responds by calling `next_task` again with the index still ≥ 4. That call increments and wraps again, and so does every nested call. The recursion ends only when Python raises `RecursionError`. The error unwinds every pending frame, so the reset to 0 (line 98) and the end of the drag (line 171) never run. The index is left far above 4, the canvas is empty, and the dragged item stays set. | Completing the fourth task (drop the circle on the goal while the index is 3) | Wrap once to the first task, with a single "task_complete" and then "new_task" | high (not executed) | `Tasks.ReentryNeverReturns` (about `Tasks.ReentrantNextTask`) | `Tasks.TaskCanvas.NextTask` |
