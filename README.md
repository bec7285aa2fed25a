# A verified model of a Flask to-do list

The application keeps its to-do list in one module-level Python list,
`tasks`, of dictionaries `{"task": label, "done": flag}`, and three request
handlers change it in place:

- `add` strips the submitted text with `str.strip()` and appends it as an
  open task, but only if something is left after stripping;
- `complete` marks the task at a positional index as done, if the index is
  in range;
- `delete` removes the task at a positional index, if the index is in range,
  so that every later task moves down one position.

The list starts with one open task labelled `"Test"`.

The model has two modules in two files:

- `pystring.dfy`, module `PyString`: the characters CPython counts as
  whitespace and `str.strip()` with no argument. `Strip` is proved to return
  a slice of its input with only whitespace cut from either end and no
  whitespace left at either end. `StripUnique` shows that this description
  fixes the result. It is empty exactly when the input is all whitespace, and
  stripping twice gives the same result as stripping once.
- `todo.dfy`, module `Todo`: the `Task` datatype (fields `task` and `done`, after the dictionary keys) and the three handlers as
  functions from the old list to the new one (`Added`, `Completed`,
  `Deleted`), with lemmas about them. The class `TaskList` holds the list as a
  `seq<Task>` field; the bodies of its methods `Add`, `Complete` and `Delete`
  follow the handler bodies, and each method's `ensures` states the new list
  as the matching function of the old one. A small module `TodoSession`
  walks a fresh list through a few requests using the method contracts alone.

The invariant `TaskList.Valid()` holds from the start and is kept by every
method. It says that each stored label is non-empty and neither begins nor
ends with whitespace. No handler ever turns a completed task back into an
open one.

## Model

| member | source | states |
|---|---|---|
| `PyString.LeadingSpace` | app.py:18 | the count of leading characters that `strip()` removes: all of them are whitespace and the next character, if any, is not |
| `PyString.TrailingSpace` | app.py:18 | the count of trailing characters that `strip()` removes: all of them are whitespace and the character before them, if any, is not |
| `PyString.Strip` | app.py:18 | `text.strip()` is a contiguous slice of the text; everything cut off on both sides is whitespace; the result is empty or has non-whitespace first and last characters; it is never longer than the input |
| `PyString.StripUnique` | app.py:18 | any slice that satisfies the description of stripping is exactly what `Strip` returns, so the description determines `strip()` completely |
| `PyString.StripEmptyIff` | app.py:18-19 | the stripped text is empty (the `if task:` test fails) exactly when the submitted text is empty or all whitespace |
| `PyString.StripIdempotent` | app.py:18 | stripping an already stripped text leaves it unchanged |
| `TodoSession.StripExample` | app.py:18 | a text with a leading space and a trailing newline strips to the words between them |
| `Todo.Initial` | app.py:7-9 | the initial list is exactly one task, labelled "Test", not done, and satisfies the label invariant |
| `Todo.Added` | app.py:18-20 | if the stripped input is empty the list is unchanged; otherwise the list grows by one, every earlier task is unchanged, and the new last task has the stripped input as label and is not done |
| `Todo.Completed` | app.py:25-26 | length and all labels are unchanged, and a task's done flag is its old flag or-ed with "this is the index", so out-of-range indices change nothing |
| `Todo.Deleted` | app.py:31-32 | an in-range index shortens the list by one, tasks before it keep their positions and tasks after it move down one; an out-of-range index changes nothing |
| `Todo.AddedUnchangedIff` | app.py:18-20 | `add` leaves the list unchanged if and only if the submitted text is all whitespace; otherwise the list grows by exactly one |
| `Todo.AddedStripped` | app.py:18-20 | for every text, adding its stripped form has the same effect as adding the text itself |
| `Todo.AddedStoredLabel` | app.py:18-20 | a well-formed label (non-empty, no whitespace at either end) is its own stripped form, so adding it appends exactly that label as an open task |
| `Todo.CompletedOutOfRange` | app.py:25 | `complete` with an index below 0 or at least the length leaves the list unchanged |
| `Todo.CompletedIdempotent` | app.py:25-26 | completing the same index twice gives the same list as completing it once |
| `Todo.CompletedCommute` | app.py:25-26 | completing two indices gives the same list in either order |
| `Todo.DeletedOutOfRange` | app.py:31 | `delete` with an index below 0 or at least the length leaves the list unchanged |
| `Todo.DeletedRemovesOne` | app.py:31-32 | an in-range `delete` removes exactly one occurrence of the task at that index and keeps every other task (as a multiset) |
| `Todo.DeletedShifts` | app.py:31-32 | after deleting index i, position i holds the task that was at i + 1, and completing i afterwards is the same as having completed i + 1 before |
| `Todo.HandlersKeepWellFormed` | app.py:18-32 | `add`, `complete` and `delete` each keep every stored label non-empty and free of leading and trailing whitespace |
| `Todo.HandlersNeverReopen` | app.py:18-32 | no handler sets a done flag back to false: a task done before the call is done after it, at its new position |
| `Todo.TaskList.constructor` | app.py:7-9 | the list starts as the single open task "Test", and the invariant holds |
| `Todo.TaskList.Add` | app.py:18-20 | the new list is `Added` of the old list and the input; the invariant is kept |
| `Todo.TaskList.Complete` | app.py:25-26 | the new list is `Completed` of the old list and the index; the invariant is kept |
| `Todo.TaskList.Delete` | app.py:31-32 | the new list is `Deleted` of the old list and the index; the invariant is kept |

## Left out

- Flask plumbing (the `Flask` object, the route decorators, `TEMPLATES_AUTO_RELOAD`, the redirects, template rendering and `app.run`): framework I/O with no effect on the list.
- The `index` handler: it only prints a directory listing and renders the list, so it reads the state and never changes it.
- Reading the form: `Add` takes the value of the `task` field as its argument; a missing field is the argument `""`, which `request.form.get("task", "")` would supply.
- Flask's `<int:index>` URL converter: the index is an unbounded `int` argument, and the handlers' own range check covers negative values.
- Dictionary identity: a task is a value of the `Task` datatype, so setting `done` builds a new value at that position instead of mutating a shared dictionary. No other reference to those dictionaries exists in the code, so nothing observable depends on it.
- Concurrency: requests are treated as running one after another; races between requests on the shared list are not modelled.
