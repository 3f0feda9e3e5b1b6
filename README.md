# DoItList task-list model

A Dafny model of the task-list state machine of the `Home` page component of
DoItList (`src/app/page.js`). The component keeps an ordered list of tasks
(`{text, completed}`), the text pending in the input box, and one slot of the
browser's local storage under the key `"my-tasks"`. Six handlers change that
state: typing into the input, submitting it (add), the per-row delete button
(remove), the per-row checkbox (toggle), the mount effect (hydrate) and the
sync button.

- `strings.dfy` (module `Strings`): `String.prototype.trim` over the
  ECMAScript white-space and line-terminator characters. It computes
  ECMAScript's TrimString with two index scans, and its contract and lemmas
  characterise it: a contiguous piece of the input, only white space cut
  off, empty exactly when the input is all white space, idempotent.
- `tasks.dfy` (module `Tasks`): the `Task` record and the three pure list
  transformations: the spread-append, `filter` by position and `map` by
  position. The last two are written as the callbacks run with their explicit
  `taskIndex` counter, and lemmas prove what they amount to: a splice at a
  valid index and the identity elsewhere, and a flip of one `completed` flag.
- `home.dfy` (module `Home`): class `Home` with the fields `tasks`, `newTask`
  and `storage`, one method per handler, and three client scenarios: two adds
  (showing storage one task behind) and a sync, a toggle and a remove, and
  hydration with and without a stored snapshot.

The add handler is modelled as written. It serialises the `tasks` its closure
captured, which is the list before the append. So after a successful add,
storage holds the old list and lacks the new task until a later remove, toggle
or sync writes the list again. `Home.Home.HandleSubmit` states this in its
contract (`storage == Some(old(tasks))` and `!Persisted()`).

Every task the add handler creates has non-empty text with no white space
at either end. The code guarantees this only for those tasks: hydration
copies whatever snapshot storage holds. The model therefore proves that
every handler keeps the well-formedness invariant `Valid()`, and hydration
keeps it only when the stored snapshot is itself well formed.

## Model

| member | source | states |
|---|---|---|
| Strings.IsWhitespace | src/app/page.js:26 | the characters `trim()` strips, ECMAScript WhiteSpace and LineTerminator; every one of them lies in the Basic Multilingual Plane |
| Strings.SkipLeading | src/app/page.js:26 | the scan behind `trim()` from the front stops at the first non-white-space character (or the end), and everything it passed over is white space |
| Strings.SkipTrailing | src/app/page.js:26 | the scan from the back stops just after the last non-white-space character (or at its lower bound), and everything it passed over is white space |
| Strings.Trim | src/app/page.js:26-27 | the input of `newTask.trim()` splits into an all-white-space prefix, the result and an all-white-space suffix, and neither end of the result is white space |
| Strings.TrimEmptyIffBlank | src/app/page.js:26 | `trim()` yields `""` exactly when every character of the input is white space, so the add guard rejects precisely blank input |
| Strings.TrimOfTrimmed | src/app/page.js:27 | text with no white space at either end is returned unchanged by `trim()` |
| Strings.TrimIdempotent | src/app/page.js:27 | trimming twice equals trimming once, so a stored task text is its own trim |
| Tasks.NewTask | src/app/page.js:27 | the record `{text: newTask.trim(), completed: false}` starts not completed and is well formed exactly when the input is not blank |
| Tasks.NewTaskOfTrimmed | src/app/page.js:27 | building the record from the already trimmed input gives the same record, so white space around the input never reaches a task |
| Tasks.Flip | src/app/page.js:55 | `{...task, completed: !task.completed}` always differs from the task, a second flip restores it, and it is well formed exactly when the task is |
| Tasks.Append | src/app/page.js:27 | `[...tasks, t]` keeps the old list as its prefix with `t` last, gains exactly `t` as a multiset, and is well formed exactly when the old list and `t` are |
| Tasks.AppendNewTaskWellFormed | src/app/page.js:26-27 | appending the task made from non-blank input to a well-formed list gives a well-formed list |
| Tasks.FilterOut | src/app/page.js:41 | the `filter` callback over a suffix never lengthens the list |
| Tasks.Remove | src/app/page.js:41 | the whole `filter` is one task shorter at a valid index and the same length otherwise; which task goes is given by Tasks.RemoveSplice |
| Tasks.FilterOutSplice | src/app/page.js:41 | the `filter` with a running `taskIndex` drops exactly the element whose position equals `index`, and keeps the list when no position does |
| Tasks.RemoveSplice | src/app/page.js:41 | removal at a valid index is `tasks[..i] + tasks[i+1..]`; at any other index, negative or past the end, the list is unchanged |
| Tasks.RemoveShifts | src/app/page.js:41 | removal at a valid index shortens the list by one, keeps earlier tasks in place and shifts later ones down by one in their original order |
| Tasks.RemoveDropsOnlyThatTask | src/app/page.js:41 | as multisets, removal loses exactly the task at the index and nothing else |
| Tasks.RemoveWellFormed | src/app/page.js:41 | removal keeps a well-formed list well formed |
| Tasks.MapToggle | src/app/page.js:54-56 | the `map` callback over a suffix keeps its length |
| Tasks.Toggle | src/app/page.js:54-56 | the whole `map` keeps the length and every task's text; which flag flips is given by Tasks.ToggleAt |
| Tasks.MapToggleAt | src/app/page.js:54-56 | the `map` with a running `taskIndex` flips exactly the element whose position equals `index` |
| Tasks.ToggleAt | src/app/page.js:54-56 | toggling keeps the length, flips only `completed` at a valid index (its text stays), leaves every other task unchanged, and is a no-op at an out-of-range index |
| Tasks.ToggleTwice | src/app/page.js:54-56 | toggling the same index twice restores the original list |
| Tasks.ToggleWellFormed | src/app/page.js:54-56 | toggling keeps a well-formed list well formed |
| Home.Home.constructor | src/app/page.js:15-16 | the first render starts with an empty list, an empty input and the storage slot as the browser holds it |
| Home.Home.Hydrate | src/app/page.js:65-71 | a stored snapshot replaces the list exactly (and storage then matches it); with the key absent the list keeps its value; input and storage are unchanged |
| Home.Home.SetNewTask | src/app/page.js:133 | typing sets the pending text and changes nothing else |
| Home.Home.HandleSubmit | src/app/page.js:24-32 | input whose trim is `""` (blank input, by Strings.TrimEmptyIffBlank) changes nothing; otherwise the list gains `{text: trim(input), completed: false}` at the end, the input becomes empty, and storage holds the list from before the append, so it lacks the new task |
| Home.Home.RemoveTask | src/app/page.js:40-45 | the list becomes the splice at a valid index (unchanged otherwise), the input is unchanged, and storage equals the new list |
| Home.Home.ToggleCompletion | src/app/page.js:53-60 | the list keeps its length, the task at the index is flipped, all others are unchanged, and storage equals the new list |
| Home.Home.Sync | src/app/page.js:121-124 | storage is set to the current list, list and input are unchanged, and a sync when storage already matches changes nothing (idempotent) |

## Left out

- Rendering: the JSX, the SVG icons, the `Image` and `Link` components (src/app/page.js:73-173) have no behaviour beyond displaying the state.
- src/app/layout.js is not part of this model: it is static page chrome, font loading and metadata.
- `JSON.stringify` and `JSON.parse` are taken as an exact round trip, so the storage slot holds the task list itself. A stored value that is not a JSON array of `{text, completed}` records makes `JSON.parse` throw or load foreign data in the source. The model cannot express such a value.
- Hydrate: the source skips a stored empty string (`if (tasksString)` is false for `""`). `JSON.stringify` of an array never produces `""`, so only another writer could store one. The model leaves that case out.
- `localStorage` failures (quota exhaustion, disabled storage) are uncaught browser exceptions and are not modelled.
- React scheduling: `useState` batching, re-render timing and when the mount effect fires. Each handler is one atomic step over the state of the render it belongs to.
- `e.preventDefault()` in the submit handler only suppresses the browser's form navigation.
- Strings are sequences of Unicode scalar values, not UTF-16 code units. This makes no difference to `trim`, whose white-space characters all lie in the Basic Multilingual Plane (the contract of `Strings.IsWhitespace`).
- Indices are mathematical integers. The UI only passes row positions; a non-integer JavaScript number would match no position and behave like an out-of-range index.
