# qlock-in task ledger, modelled in Dafny

qlock-in is a command-line time tracker. Each project store has two tables.
`task_info` holds task records (id, name, description). `task_ts` holds
`(id, timestamp)` rows, one per clock-in or clock-out. A task is *open* exactly
when it has an odd number of timestamp rows. `start_task` and `end_task` first
check that the task exists, then check its parity, and only then append one row
stamped with the current second. `get_elapsed_time` folds a task's timestamps
with a sign that starts at −1 and flips on every row. If the task is still open,
it adds the current time.

The model treats both tables as immutable sequences in insertion order
(`Store.Ledger`). Every query and transition is a pure function of that value.
The wall clock (`time(NULL)`) is an explicit `now` parameter. Integers are
unbounded.

- `store.dfy` (module `Store`): the rows, column projections, row counting,
  the per-task timestamp list, and the store invariant `Valid`. `Valid` says
  task ids are distinct (the primary key) and every timestamp row names an
  existing task. That is the foreign key, which sqlite does not enforce by
  default; the transitions maintain it.
- `task_utils.dfy` (module `TaskUtils`): the queries of `task_utils.c`, plus
  the pair-sum reference definition of elapsed time and its closed-form lemma.
- `tasks.dfy` (module `Tasks`): `stamp_task`, `start_task`, `end_task` and
  `create_task` of `tasks.c`, with scenario lemmas taken from `test.c`.
  `clock.c` holds copies of these four functions (`clock.c:12-140`) that are
  identical apart from an unused `zErrMsg` declaration in `create_task`, so the same members model both files.

Where the sources disagree, the model resolves each case as follows:

- Error codes. `tasks.h:3` declares `TASK_OK / TASK_NOT_EXIST /
  TASK_WRONG_STATE`, and `test.c:91-95` expects distinct codes. The bodies
  return `1` in both failure branches. The model's transitions return the
  three-valued `Tasks.TaskState`. The as-written integers are modelled
  separately (see Findings).
- `create_task`. `tasks.c` and `clock.c` read the name and description from
  stdin and return `0`. `tasks.h:5` and `main.c:93-95` instead pass them in and
  use the return value as the new id. The model follows the header:
  `Tasks.CreateTask(l, name, description)` returns the new id and the new store.
- `get_elapsed_time` never checks that the task exists. An unknown id has no
  rows, so its elapsed time is 0. The model keeps this behaviour rather than
  failing with "task not found".

## Model

| member | source | states |
|---|---|---|
| Store.Occurrences | task_utils.c:25 | A `COUNT(*) ... WHERE id=x` over a column equals the size of the set of row positions holding `x` |
| Store.TimesOfCount | task_utils.c:21-42 | The rows `get_elapsed_time` selects for an id are exactly as many as `get_num_timestamps` counts |
| TaskUtils.NumTimestamps | task_utils.c:21-42 | The count is a natural number equal to the length of the task's timestamp list; it is 0 iff no `task_ts` row carries `id` |
| TaskUtils.NumTimestampsCountsRows | task_utils.c:25 | The `COUNT(*)` value equals the length of the id's timestamp list, and it is 0 iff no `task_ts` row carries the id |
| TaskUtils.TaskIsOpen | task_utils.c:44-47 | A task is open iff its list of timestamps has odd length; a task with no rows is closed |
| TaskUtils.TaskExists | task_utils.c:49-71 | The result is 0 iff no record has the id; under the primary-key invariant it is never more than 1, and it is 1 iff a record has the id |
| TaskUtils.TaskExistsCountsRecords | task_utils.c:54 | The existence count is 0 iff no record has the id, and exactly 1 under the primary-key invariant when one does |
| TaskUtils.MaxId | task_utils.c:73-93 | 0 on an empty registry; otherwise an id that is present and no smaller than any task id |
| TaskUtils.OpenTasks | task_utils.c:95-102 | Yields strictly ascending ids; an id is listed iff it lies in `0..max id` and its task is open; the list is empty when no task is open |
| TaskUtils.AlternatingSumClosedForm | task_utils.c:110-127 | The sign-flipping fold over the first `n` rows equals the sum of `t(2i+1) − t(2i)` over the complete pairs among them, less the trailing unmatched start when `n` is odd |
| TaskUtils.ElapsedTime | task_utils.c:104-139 | With an even number of stamps, the result is the pair sum. With an odd number, it is the pair sum plus `now − last stamp`. An id with no stamps, existing or not, yields 0 |
| TaskUtils.ElapsedNonNegative | task_utils.c:124-136 | For nondecreasing stamps, with `now` not before the last one, the elapsed time is at least 0 |
| Tasks.StampTask | tasks.c:67-98 | Appends exactly one row and keeps every earlier row and all task records. The id's timestamps gain `now` at the end, its count rises by one and its state flips. Every other id keeps its timestamps, count and state. Identical copy at clock.c:67-98 |
| Tasks.StampFrame | tasks.c:68-69 | A stamp for one id leaves the elapsed time of every other id unchanged |
| Tasks.StartTask | tasks.c:100-119 | If the id's existence count is not 1, the result is not-exist, whatever the parity. Otherwise an open task gives wrong-state. Success happens iff the task exists and is closed, and then exactly one stamp `(id, now)` is appended, leaving the task open. A failure returns the store unchanged. Under `Valid`, not-exist happens iff no record exists, and `Valid` is preserved. Identical copy at clock.c:100-119 |
| Tasks.EndTask | tasks.c:121-140 | If the id's existence count is not 1, the result is not-exist. Otherwise a closed task, including one with zero stamps, gives wrong-state. Success happens iff the task exists and is open, and then one stamp is appended, leaving an even count and a closed task. A failure returns the store unchanged. `Valid` is preserved. Identical copy at clock.c:121-140 |
| Tasks.CreateTask | tasks.c:13-65 | The new id is the max id + 1, so it is 1 on an empty registry and larger than every existing id. The call appends one record, adds no stamps and preserves `Valid`. The new task then exists, has zero stamps and is closed. Identical allocation at clock.c:22 |
| Tasks.StartEndRoundTrip | tasks.c:102-140 | On an existing closed task, start then end both succeed. The count rises by exactly 2 and the task is closed again |
| Tasks.OneSession | test.c:116-118 | For a task with no stamps, start at `t1` then end at `t2` both succeed; afterwards it has exactly the stamps `t1, t2`, is closed, and its elapsed time is `t2 − t1` |
| Tasks.SessionThenRunning | task_utils.c:134-136 | For a task with no stamps, start at `t1`, end at `t2` and start again at `t3` all succeed, and the elapsed time at `now` is `(t2 − t1) + (now − t3)` |
| Tasks.FreshPairElapsed | test.c:115-118 | For a new task started at `t1` and stopped at `t2`, the elapsed time is `t2 − t1`, which is 0 when both fall in the same second |
| Tasks.OpenTaskElapsed | task_utils.c:124-136 | For a newly created task: create, start at `t1`, stop at `t2`, start at `t3`: the elapsed time at `now` is `(t2 − t1) + (now − t3)` |
| Tasks.StartTaskReturnCode | tasks.c:105-112 | The integer `start_task` returns as written is 0 iff the start succeeds, and 1 (`TASK_NOT_EXIST`) for every failure, wrong-state included. So it equals the `TASK_STATE` code of the outcome except exactly in the wrong-state case |
| Tasks.EndTaskReturnCode | tasks.c:126-133 | The integer `end_task` returns as written is 0 iff the stop succeeds, and 1 (`TASK_NOT_EXIST`) for every failure, wrong-state included. So it equals the `TASK_STATE` code of the outcome except exactly in the wrong-state case |
| Tasks.TestSessionStore | test.c:86-90 | On a cleared store, the created task gets id 1; starting and stopping it both succeed, leaving it existing and closed with two stamps, and no task has id -1 |
| Tasks.CollapsedFailureCodes | test.c:91-95 | Replaying the test suite's sequence on a cleared store: start and stop of id -1 give not-exist. Stopping task 1 at two stamps, and starting it at three stamps after one more start, give wrong-state (2), while the as-written code is `TASK_NOT_EXIST` (1) in both |

## Findings

| source | as written | input that shows it | evidently intended | confidence | as-written member | corrected member |
|---|---|---|---|---|---|---|
| tasks.c:109-112 (same at clock.c:109-112) | `start_task` returns `1` when the task is already open | Cleared store, create task 1, start, stop, start, start again: the last call returns 1 (`TASK_NOT_EXIST`) | return `TASK_WRONG_STATE` (2), as `test.c:95` expects | high; not executed | Tasks.StartTaskReturnCode, Tasks.CollapsedFailureCodes | Tasks.StartTask |
| tasks.c:130-133 (same at clock.c:130-133) | `end_task` returns `1` when the task is not open | Cleared store, create task 1, start, stop, stop again: the last call returns 1 (`TASK_NOT_EXIST`) | return `TASK_WRONG_STATE` (2), as `test.c:93` expects | high; not executed | Tasks.EndTaskReturnCode, Tasks.CollapsedFailureCodes | Tasks.EndTask |

## Left out

- SQLite mechanics are not modelled: prepare, bind, step, finalize, `cleanup`, `setup_db` and table creation. Storage is an infallible value, so the SQL error codes returned on failed statements never arise. Storage failures are not modelled either: the store never fails, so no transition has a failure outcome for them.
- Project and master-store management in `project.c` is plumbing over SQL and the filesystem, so it is not modelled.
- CLI dispatch and interactive prompts (`main.c`, the `clock.c` `main`) are not modelled. Neither is the `fgets`/`sscanf` input with fixed buffers. Names and descriptions are opaque strings with no length limit.
- `create_task` in `tasks.c`/`clock.c` reads its strings from stdin and returns 0. The model takes them as arguments and returns the id, as declared in `tasks.h`.
- `print_open_tasks` prints each id. `TaskUtils.OpenTasks` returns the ids as a sequence instead. It reads the largest id once, where the C loop re-reads it on every pass; nothing writes during the loop, so the value is the same.
- `print_elapsed_breakdown` (called at main.c:61) has no declaration or body in the sources; `get_open_tasks`/`get_all_tasks` are declared at task_utils.h:8-9 without bodies. None of them is part of this model.
- Tasks.CreateTask: C `int` width is not modelled in id allocation: `get_max_id(db) + 1` (tasks.c:22) overflowing at `INT_MAX`, and `sqlite3_column_int` truncating `MAX(id)` (task_utils.c:85), cannot happen with unbounded integers.
- TaskUtils.ElapsedTime: the 32-bit truncation of `time(NULL)` by `sqlite3_bind_int` and C `int` overflow in the sum are not modelled. Integers are unbounded.
- Console messages are not modelled: `create_task`'s "Creating new task." and "Created task #id.", the "Started/Ended task #id." lines, and the stderr lines of the failure branches (`tasks.c:56,63,106,110,116,127,131,137`). The stderr lines of the wrong-state branches (`tasks.c:110,131`) do name the real cause ("currently active", "not currently active"), although the return code does not.
- Concurrent writers to one store are not modelled; the system assumes a single process.
