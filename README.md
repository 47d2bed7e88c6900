# taskdb: retry-until-ready and the watcher-counting task registry

`taskdb` shares the result of a long-running, repeatedly recomputed function
among every caller that asks for the same task id. A `TaskDB` keeps one
`Task` per id. The first caller of `monitor_task` for an id creates the task.
Any caller that finds the task idle starts it. Each caller counts itself as a
watcher, waits for data, and then counts itself out. The last caller to
leave stops the task, but the task stays registered for later reuse. Inside
the task, `run_until_complete` calls the user's function until it returns a
value that is "ready" under Python truthiness.

This project models the two sequential parts of that mechanism and proves
their properties in Dafny:

- `pyvalue.dfy` (module `PyValue`): Python result values (None, bool, int,
  str, list, tuple) and their truthiness. It has the loop condition of
  `run_until_complete` exactly as written (`KeepsRetrying`), and a proof that
  it means "falsy, or a tuple with a falsy field" (`NotReady`). The
  `isinstance(result, list)` clause never changes the decision.
- `retry.dfy` (module `Retry`): the retry loop of `run_until_complete`, as a
  method with a `while` loop. The opaque target is a script of call
  outcomes. A call either returns a value, raises an exception derived from
  `Exception`, or raises some other `BaseException`. The method is proved
  against `FirstEnd`, the index of the first call that ends the loop. An
  `Exception` is caught and leaves `result` unchanged. Any other
  `BaseException` (`SystemExit`, `KeyboardInterrupt`, `GeneratorExit`) is
  not caught by `except Exception`, so it propagates out of the loop.
- `taskdb.dfy` (module `TaskDb`): `Task` and `TaskDB` as classes whose
  methods update the task map and each task's `watchers` and `active` fields
  in place. Each locked section of `monitor_task` is one atomic method,
  `Acquire` or `Release`. These methods are proved against two pure
  transition functions on a map of task states, `Acquired` and `Released`.
  Over any call history in which every release undoes an earlier acquire,
  `ReplayTracksKey` proves four facts about each key: a task exists exactly
  when the key was ever acquired; its watcher count is the number of
  outstanding acquires; it runs exactly when that count is positive; and it
  keeps the function and arguments of the first acquire.

Two modelling choices follow the code. First, when the last watcher leaves,
the `Task` stays in `tasks` and only its process is terminated. `Released`
keeps the entry, and a later `Acquire` restarts the same task object rather
than creating a new one. Second, `start` checks nothing itself. Only
`monitor_task` tests `task.active` before calling it. `Task.Start` therefore
has no precondition.

## Model

| member | source | states |
|---|---|---|
| `PyValue.KeepsRetryingIffNotReady` | taskdb/db.py:8 | the loop condition as written holds exactly when the value is falsy or is a tuple with a falsy field; the list clause never matters |
| `PyValue.ReadyMeans` | taskdb/db.py:8 | a value that ends the loop is truthy, and if it is a tuple then it is non-empty and every field is truthy |
| `PyValue.FalsyValuesAreNotReady` | taskdb/db.py:7-8 | None, False, 0, "", [] and () never end the loop; the initial `result = None` always enters it |
| `PyValue.PartialTupleIsNotReady` | taskdb/db.py:8 | a tuple with any falsy field is not ready, whatever its other fields hold |
| `PyValue.NestedFieldsNotInspected` | taskdb/db.py:8 | tuple fields are tested one level deep: a tuple holding a non-empty tuple of falsy values is ready |
| `PyValue.ListElementsNotInspected` | taskdb/db.py:8 | a non-empty list is ready even if all its elements are falsy |
| `Retry.FirstEnd` | taskdb/db.py:8-11 | the index of the first call that ends the loop, either by returning a ready value or by raising an exception `except Exception` does not catch: that call ends the loop and no earlier call does; there is no such index exactly when no call ends it |
| `Retry.FirstEndAt` | taskdb/db.py:8-11 | if the call at k ends the loop and no earlier call does, then k is the first ending call |
| `Retry.RunUntilComplete` | taskdb/db.py:6-15 | the loop keeps calling exactly as long as no call has ended it. If a call returns a ready value first, the loop returns that value after exactly that many calls, and it never returns a value that is not ready. If an uncaught `BaseException` comes first, the exception propagates from that call. If the script runs out first, `result` holds the last returned value (None if every call raised) |
| `Retry.AlwaysRaisingNeverReturns` | taskdb/db.py:9-13 | a target whose every call raises an `Exception` never ends the loop, and `result` stays None |
| `Retry.FalsyResultsAreRetried` | taskdb/db.py:8-13 | calls that raise an `Exception` or return values that are not ready, followed by a ready value, make the loop stop at that ready value and not before |
| `Retry.UncaughtExceptionEndsRun` | taskdb/db.py:9-11 | calls that raise an `Exception` or return values that are not ready, followed by a `BaseException` outside `Exception`, make the loop end at that call with the exception propagated |
| `TaskDb.Acquired` | taskdb/db.py:57-64 | after the first locked section the key is present and active with one more watcher (one for a new key); an existing task keeps its function and arguments (first registration wins); other keys are unchanged; the invariant "active exactly when watchers > 0" is preserved |
| `TaskDb.Released` | taskdb/db.py:71-74 | after the second locked section the key keeps its task with one watcher fewer; it becomes inactive exactly when the count reaches 0; function, arguments and other keys are unchanged; the invariant is preserved when the count was positive |
| `TaskDb.ReplayTracksKey` | taskdb/db.py:56-74 | over a history in which every release follows its acquire: a key has a task exactly when it was ever acquired; its watcher count equals the outstanding acquires; it is active exactly when that count is positive; it holds the function and arguments of the first acquire |
| `TaskDb.ReplayIsConsistent` | taskdb/db.py:57-74 | every task after such a history is active exactly when it has watchers |
| `TaskDb.Task.constructor` | taskdb/db.py:18-28 | a new task records its id, function and arguments, with no watchers and not active |
| `TaskDb.Task.Start` | taskdb/db.py:38-41 | `start` sets `active` and changes nothing else of the task state |
| `TaskDb.Task.Stop` | taskdb/db.py:43-45 | `stop` clears `active` and changes nothing else of the task state |
| `TaskDb.TaskDB.constructor` | taskdb/db.py:48-50 | a new registry has no tasks |
| `TaskDb.TaskDB.AddTask` | taskdb/db.py:52-54 | files a fresh, idle task under the key, replacing any task there, and returns it |
| `TaskDb.TaskDB.Acquire` | taskdb/db.py:57-64 | the registry moves by `Acquired`; an existing task object is reused, not replaced; a new object is created only for an unknown key; the returned task is the one filed under the key; the registry invariant is kept |
| `TaskDb.TaskDB.Release` | taskdb/db.py:71-74 | the caller's own task object loses one watcher and is stopped exactly when the count reaches 0; the map is not touched; if that task is still filed under its id the registry moves by `Released`, and if a direct `add_task` has replaced it the registry is unchanged; the registry invariant is kept |

## Left out

- Processes and shared memory (`multiprocessing.Process`, `Manager`, `Namespace`, `process.terminate()`) are not modelled, because they have no sequential meaning to verify. `start` and `stop` only set `active`.
- The lock is not modelled. Each locked section is one atomic method, so concurrent interleavings, and the race between a caller's polling and another caller's `stop`, are not captured.
- `Task.execute` (taskdb/db.py:30-33) is not modelled beyond the retry loop it calls: it is an endless refresh loop, in the worker process, that calls `run_until_complete` again and again and overwrites the shared result with each value. `Task.get_data` and the caller's wait for data in `monitor_task` (taskdb/db.py:66-69) are not modelled either: that loop polls, without end and on a timer, for a value the worker process writes.
- `time.sleep`, `print` and `traceback.format_exc` are left out, because they only affect timing and logging.
- The call to the user's `target(*args)` is not modelled. It becomes a given script of outcomes: a returned value, a caught `Exception`, or an uncaught `BaseException`.
- An uncaught `BaseException` ends the model's run with `Escaped`. What follows in the source is not modelled: the exception leaves `Task.execute` and ends the worker process, while the task's `active` stays true. Callers get the last value the task published, or wait forever if it never published one; the dead task is not restarted until its watcher count returns to 0.
- Retry.RunUntilComplete: the script of calls is finite. Where the source would loop forever, the method returns `StillWaiting` with the current `result`.
- PyValue: only None, bool, int, str, list and tuple are modelled. Floats, dicts, sets and user objects (with or without `__bool__`/`__len__`) are not.
- TaskDb.TaskDB.Release: requires a positive watcher count on the caller's task. `monitor_task` always releases a task it acquired itself, so this always holds there. The pure `TaskDb.Released` has no such requirement: like the source, it would take the count to -1.
- TaskDb.Released: describes only a release of the task filed under the key, and leaves the map unchanged for a key that has no task. A release of a task that `add_task` has since replaced leaves the map's states unchanged; `TaskDb.TaskDB.Release` states that case.
