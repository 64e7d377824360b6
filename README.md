# Todo task list — a verified Dafny model

This project models the task list behind the `Todo` React component of the
Todo_app repository (`src/components/ToDo.tsx`). The component keeps an
ordered list of tasks `{id, text, completed}`, the text typed into the input
box, the current view filter (`all`, `active` or `completed`) and a flag that
says whether the stored tasks have been loaded. It has five handlers:

- `addTask` appends the typed text as a new open task unless it trims to
  the empty string;
- `toggleTaskCompletion` flips the completion of every task with a given id;
- `deleteTask` drops every task with a given id;
- `clearCompletedTasks` drops the completed tasks;
- `filteredTasks` is the read-only view that the filter selects.

Files and modules:

- `js_string.dfy` (`JsString`): the whitespace set of ECMAScript and
  `String.prototype.trim`, with the fact that a string trims to `""` exactly
  when all of its characters are whitespace.
- `seq_filter.dfy` (`SeqFilter`): `Array.prototype.filter` as `Keep`, and a
  reference definition of an order-preserving subsequence (`IsSubsequence`).
  Lemmas say that filtering yields such a subsequence, keeps exactly the
  elements that pass the test, is idempotent, and that a test and its negation
  split the input.
- `task_list.dfy` (`TaskList`): the `Task` and `Filter` types. Each handler
  is a pure function from the old state to the new one. Lemmas state what
  each handler does, and five lemmas replay the component tests.
- `todo_component.dfy` (`TodoComponent`): class `Todo`. Its fields are the
  component's state variables. Each handler is a method that assigns the
  value its `TaskList` function computes. A client method, `Mount`, runs the
  effects of mounting against stored tasks.

Ids come from `Date.now()` in the source. Here the id is a parameter of
`AddTask`, and ids are not assumed to be unique. Toggle and delete act on
every task that carries the id, as the source does.

What the code does, and the model with it:

- Ids are clock readings (`Date.now()`, src/components/ToDo.tsx:40), so two
  tasks added within the same millisecond share an id, and toggling or
  deleting that id then affects both.
- The stored text is the input exactly as typed: `trim` is used only in the
  guard at src/components/ToDo.tsx:38, so a task may carry leading or
  trailing whitespace.
- `JSON.parse` at src/components/ToDo.tsx:22 has no error handling, so
  malformed stored data makes the mount effect throw. The model takes the
  already-parsed value as input (see below).

## Model

| member | source | states |
|---|---|---|
| `JsString.TrimStart` | src/components/ToDo.tsx:38 | the result is a suffix of the input; every dropped character is whitespace; the result is empty or starts with a non-whitespace character |
| `JsString.TrimEnd` | src/components/ToDo.tsx:38 | the result is a prefix of the input; every dropped character is whitespace; the result is empty or ends with a non-whitespace character |
| `JsString.Trim` | src/components/ToDo.tsx:38 | the result is a slice of the input with only whitespace before and after it; `trim()` gives `""` exactly when every character is whitespace; a non-empty result has non-whitespace at both ends |
| `JsString.TrimBothEnds` | src/components/ToDo.tsx:38 | once leading and then trailing whitespace are removed, the rest is the slice between two whitespace runs, and it is empty exactly when the input is all whitespace |
| `JsString.IsWhitespace` | src/components/ToDo.tsx:38 | the characters `trim` strips: ECMAScript WhiteSpace and LineTerminator; characterised through `TrimStart`, `TrimEnd` and `Trim` |
| `SeqFilter.Keep` | src/components/ToDo.tsx:65 | `Array.prototype.filter`; characterised by `KeepIsSubsequence`, `KeepMembership`, `KeepSplit`, `KeepUnchanged` and `KeepIsShorter` |
| `TaskList.Flip` | src/components/ToDo.tsx:55 | the `map` callback: flips `completed` when the id matches; characterised by `ToggleSpec` |
| `TaskList.ToggleTaskCompletion` | src/components/ToDo.tsx:54-55 | `tasks.map` with `Flip`; characterised by `ToggleSpec`, `ToggleAbsentId` and `ToggleTwice` |
| `TaskList.DeleteTask` | src/components/ToDo.tsx:65 | `tasks.filter` on another id; characterised by `DeleteSpec` and `DeleteShrinks` |
| `TaskList.ClearCompletedTasks` | src/components/ToDo.tsx:72 | `tasks.filter` on open tasks; characterised by `ClearCompletedSpec` |
| `TaskList.FilteredTasks` | src/components/ToDo.tsx:79-89 | the view per filter, `all` and the default giving the list itself; characterised by `FilteredTasksSpec` and `ActiveCompletedPartition` |
| `TaskList.AddTask` | src/components/ToDo.tsx:37-46 | whitespace-only input: list and input are unchanged; otherwise the list grows by one, the old prefix is untouched, the last task is `Task(id, untrimmed text, false)`, and the input becomes `""` |
| `TaskList.ToggleSpec` | src/components/ToDo.tsx:52-57 | toggling keeps the length, the order, and each task's id and text; `completed` flips on exactly the tasks with that id; every other task is identical |
| `TaskList.ToggleAbsentId` | src/components/ToDo.tsx:54-56 | toggling an id that no task has leaves the list unchanged |
| `TaskList.ToggleTwice` | src/components/ToDo.tsx:55 | toggling the same id twice restores the original list |
| `TaskList.DeleteSpec` | src/components/ToDo.tsx:64-66 | the result is an order-preserving subsequence; a task stays exactly when it was present and has another id; each task with another id keeps its number of occurrences and no task with the id remains; the list never grows; it shrinks if and only if some task had the id, and is unchanged when none had |
| `TaskList.DeleteShrinks` | src/components/ToDo.tsx:65 | deleting an id that some task has removes at least one task |
| `TaskList.ClearCompletedSpec` | src/components/ToDo.tsx:71-73 | the result is an order-preserving subsequence; a task stays exactly when it was present and open; the removed tasks are the 'completed' view; clearing is idempotent; the result equals the 'active' view |
| `TaskList.FilteredTasksSpec` | src/components/ToDo.tsx:79-89 | every view is an order-preserving subsequence holding exactly the tasks its filter shows; the 'all' view is the list itself |
| `TaskList.ActiveCompletedPartition` | src/components/ToDo.tsx:81-84 | the 'active' and 'completed' views are disjoint; their lengths sum to the list's length; together they hold each task exactly as often as the list does |
| `SeqFilter.KeepIsSubsequence` | src/components/ToDo.tsx:82-84 | `filter` returns an order-preserving subsequence of its input |
| `SeqFilter.KeepMembership` | src/components/ToDo.tsx:82-84 | an element is in the result of `filter` exactly when it is in the input and passes the test |
| `SeqFilter.KeepSplit` | src/components/ToDo.tsx:82-84 | filtering with a test and with its negation gives lengths summing to the input's length and multisets summing to the input's multiset |
| `SeqFilter.KeepUnchanged` | src/components/ToDo.tsx:82-84 | `filter` returns its input unchanged exactly when every element passes the test |
| `SeqFilter.KeepIsShorter` | src/components/ToDo.tsx:82-84 | `filter` never lengthens its input |
| `SeqFilter.KeepIdempotent` | src/components/ToDo.tsx:72 | filtering twice with the same test equals filtering once |
| `TodoComponent.Todo.constructor` | src/components/ToDo.tsx:13-16 | initial state is no tasks, empty input, filter 'all', not loaded |
| `TodoComponent.Todo.LoadEffect` | src/components/ToDo.tsx:19-25 | a stored list, when present, replaces the tasks; loading is complete afterwards; the input and filter are not touched |
| `TodoComponent.Todo.SaveEffect` | src/components/ToDo.tsx:28-32 | before loading completes the stored value is kept; afterwards the current list is written |
| `TodoComponent.Todo.SetNewTaskText` | src/components/ToDo.tsx:98 | the input field takes the typed text; nothing else changes |
| `TodoComponent.Todo.SetFilter` | src/components/ToDo.tsx:111-128 | the filter takes the chosen value; nothing else changes |
| `TodoComponent.Todo.AddTask` | src/components/ToDo.tsx:37-46 | new tasks and input are `TaskList.AddTask` of the old ones: unchanged for whitespace-only input, otherwise the old list plus `Task(id, old input, false)` and an empty input |
| `TodoComponent.Todo.ToggleTaskCompletion` | src/components/ToDo.tsx:52-58 | the new list has the old length; each task is the old one with `completed` flipped if its id is `taskId` |
| `TodoComponent.Todo.DeleteTask` | src/components/ToDo.tsx:64-66 | the new list is an order-preserving subsequence of the old one; it holds exactly the old tasks with another id, each as often as before, and none with `taskId` |
| `TodoComponent.Todo.ClearCompletedTasks` | src/components/ToDo.tsx:71-73 | the new list is an order-preserving subsequence of the old one; it holds exactly the old open tasks |
| `TodoComponent.Todo.FilteredTasks` | src/components/ToDo.tsx:79-89 | the returned view is an order-preserving subsequence holding exactly the tasks the current filter shows; no field changes |
| `TodoComponent.Mount` | src/components/ToDo.tsx:19-32 | mounting rewrites the stored list unchanged, so it never overwrites it with the empty initial list; if nothing was stored it writes an empty list |
| `TaskList.AddVisible` | src/components/ToDo.tsx:37-46 | input whose first character is not whitespace is appended as `Task(id, text, false)` and the input is cleared |
| `TaskList.AddScenario` | src/components/ToDo.test.tsx:10-17 | adding "New Task" to the empty list gives exactly that one open task and an empty input |
| `TaskList.DeleteScenario` | src/components/ToDo.test.tsx:19-32 | adding "Task to be deleted" and deleting its id leaves the empty list |
| `TaskList.DeleteOnlyTask` | src/components/ToDo.tsx:64-66 | deleting the only task by its own id leaves the empty list |
| `TaskList.ToggleScenario` | src/components/ToDo.test.tsx:34-42 | adding "New Task" and toggling its id gives that task completed |
| `TaskList.FilterScenario` | src/components/ToDo.test.tsx:44-61 | adding "Active Task" and "Completed Task" under different ids, toggling the second and choosing 'completed' shows exactly the completed "Completed Task" and nothing with the text "Active Task" |
| `TaskList.TwoTasks` | src/components/ToDo.tsx:52-58 | toggling the second of two open tasks with different ids and taking the 'completed' view gives just that task, completed |
| `TaskList.ClearScenario` | src/components/ToDo.test.tsx:63-72 | adding "Completed Task", toggling it and clearing completed tasks leaves the empty list |
| `TaskList.ToggleThenClearOnlyTask` | src/components/ToDo.tsx:71-73 | toggling the only task, an open one, and then clearing completed tasks leaves the empty list |

## Left out

- JSX rendering, CSS classes, the `GoTrash` icon and the DOM event wiring
  (src/components/ToDo.tsx:91-167): these are presentation only. Only the
  state changes the input and the filter buttons make are modelled
  (`SetNewTaskText`, `SetFilter`).
- `localStorage` and JSON (src/components/ToDo.tsx:20-22, 30): browser I/O
  and foreign serialisation. `LoadEffect` takes the parsed stored list as an
  `Option`. `None` stands for a missing key or an empty string, both of which
  `if (storedTasks)` skips. `SaveEffect` returns the value written instead of
  a JSON string. So the save/load round trip through JSON is not modelled,
  and neither is `JSON.parse` throwing on malformed data.
- `Date.now()` (src/components/ToDo.tsx:40): a clock read. The id is a
  parameter of `AddTask`.
- React hook semantics: `useState` batching, re-rendering, and when effects
  run. Each handler is one atomic assignment to the fields. On mounting,
  React runs the load effect and then the save effect, but that save sees
  the first render's state, in which `isLoaded` is false, so it writes
  nothing. Since the model's load updates the fields at once, `Mount`
  reproduces that snapshot by running the first save before the load, and
  then runs the save of the next render.
- `id: number` (src/components/ToDo.tsx:5) is a JavaScript double; the model
  uses `int`. Nothing is lost: ids are only compared with `===` and `!==`,
  and `Date.now()` returns an integer.
- JavaScript strings are sequences of UTF-16 code units, while a Dafny
  `string` holds Unicode scalar values. Every character `trim` removes lies
  in the Basic Multilingual Plane, so the only gap is lone surrogates, which
  have no counterpart here.
- The test file src/components/ToDo.test.tsx drives the DOM. Its five tests
  are restated as the lemmas `AddScenario`, `DeleteScenario`,
  `ToggleScenario`, `FilterScenario` and `ClearScenario`, over the pure
  functions rather than the class, with each clock reading as a parameter.
  What is on screen is stated as the content of the list or view; the
  `localStorage.clear()` before each test is the empty initial list.
