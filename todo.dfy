/** The to-do list of the web application: one module-level list of tasks
    that three request handlers change in place.

    A task is identified by its position in the list. Adding a task appends
    it, completing one flips its `done` flag, and deleting one removes it and
    moves every later task down by one position. Indices that do not name a
    task are ignored. */
module Todo {
  import opened PyString

  /** One entry of the list: the dictionary `{"task": task, "done": done}`. */
  datatype Task = Task(task: string, done: bool)

  /** A label as the application stores it: non-empty and already stripped. */
  predicate WellFormedLabel(s: string) {
    s != [] && IsTrimmed(s)
  }

  /** The invariant every reachable list satisfies. */
  predicate AllWellFormed(ts: seq<Task>) {
    forall k :: 0 <= k < |ts| ==> WellFormedLabel(ts[k].task)
  }

  /** `0 <= index < len(tasks)`, the guard of both index handlers. */
  predicate InRange(ts: seq<Task>, index: int) {
    0 <= index < |ts|
  }

  /** The list the application starts with. */
  function Initial(): (ts: seq<Task>)
    ensures |ts| == 1 && ts[0].task == "Test" && !ts[0].done
    ensures AllWellFormed(ts)
  {
    [Task("Test", false)]
  }

  // ---------------------------------------------------------------------
  // The three handlers as functions from the old list to the new one.
  // ---------------------------------------------------------------------

  /** `add`: the submitted text is stripped and, only if something is left,
      appended as a new open task. */
  function Added(ts: seq<Task>, input: string): (r: seq<Task>)
    ensures Strip(input) == [] ==> r == ts
    ensures Strip(input) != [] ==>
      |r| == |ts| + 1 && r[..|ts|] == ts
      && r[|ts|].task == Strip(input) && !r[|ts|].done
  {
    var t := Strip(input);
    if t != [] then ts + [Task(t, false)] else ts
  }

  /** `complete`: the task at `index`, if there is one, is marked done; every
      label and every other flag keeps its value. */
  function Completed(ts: seq<Task>, index: int): (r: seq<Task>)
    ensures |r| == |ts|
    ensures forall k :: 0 <= k < |ts| ==>
      r[k].task == ts[k].task && r[k].done == (ts[k].done || k == index)
  {
    if InRange(ts, index) then ts[index := ts[index].(done := true)] else ts
  }

  /** `delete`: the task at `index`, if there is one, is removed; the tasks
      before it stay where they are and the tasks after it move down one
      position. */
  function Deleted(ts: seq<Task>, index: int): (r: seq<Task>)
    ensures |r| == if InRange(ts, index) then |ts| - 1 else |ts|
    ensures forall k :: 0 <= k < |r| ==>
      r[k] == if InRange(ts, index) && k >= index then ts[k + 1] else ts[k]
  {
    if InRange(ts, index) then ts[..index] + ts[index + 1..] else ts
  }

  // ---------------------------------------------------------------------
  // Properties of the handlers.
  // ---------------------------------------------------------------------

  /** `add` leaves the list as it is exactly when the submitted text is empty
      or whitespace alone; otherwise the list grows by one. */
  lemma AddedUnchangedIff(ts: seq<Task>, input: string)
    ensures Added(ts, input) == ts <==> AllSpace(input)
    ensures !AllSpace(input) ==> |Added(ts, input)| == |ts| + 1
  {
    StripEmptyIff(input);
  }

  /** Submitting the stripped form of a text has the same effect as
      submitting the text itself. */
  lemma AddedStripped(ts: seq<Task>, input: string)
    ensures Added(ts, Strip(input)) == Added(ts, input)
  {
    StripIdempotent(input);
  }

  /** Submitting the label of a stored task adds that label unchanged: a
      well-formed label is its own stripped form. */
  lemma AddedStoredLabel(ts: seq<Task>, stored: string)
    requires WellFormedLabel(stored)
    ensures Strip(stored) == stored
    ensures Added(ts, stored) == ts + [Task(stored, false)]
  {
    assert stored[..0] == [] && stored[|stored|..] == [] && stored[0..|stored|] == stored;
    assert IsStripOf(stored, stored);
    StripUnique(stored, stored);
  }

  /** Completing an index that names no task leaves the list unchanged. */
  lemma CompletedOutOfRange(ts: seq<Task>, index: int)
    requires !InRange(ts, index)
    ensures Completed(ts, index) == ts
  {
  }

  /** Completing the same task twice has the effect of completing it once. */
  lemma CompletedIdempotent(ts: seq<Task>, index: int)
    ensures Completed(Completed(ts, index), index) == Completed(ts, index)
  {
  }

  /** Completing two tasks gives the same list in either order. */
  lemma CompletedCommute(ts: seq<Task>, i: int, j: int)
    ensures Completed(Completed(ts, i), j) == Completed(Completed(ts, j), i)
  {
  }

  /** Deleting an index that names no task leaves the list unchanged. */
  lemma DeletedOutOfRange(ts: seq<Task>, index: int)
    requires !InRange(ts, index)
    ensures Deleted(ts, index) == ts
  {
  }

  /** Deleting removes exactly one occurrence of the deleted task and keeps
      every other task. */
  lemma DeletedRemovesOne(ts: seq<Task>, index: int)
    requires InRange(ts, index)
    ensures multiset(Deleted(ts, index)) == multiset(ts) - multiset{ts[index]}
    ensures multiset(Deleted(ts, index)) + multiset{ts[index]} == multiset(ts)
  {
    assert ts == ts[..index] + [ts[index]] + ts[index + 1..];
  }

  /** Positions are renumbered by deletion: after deleting `index`, the task
      that was at position `index + 1` is the one at `index`, so an index read
      before the deletion names a different task afterwards. */
  lemma DeletedShifts(ts: seq<Task>, index: int)
    requires 0 <= index && index + 1 < |ts|
    ensures Deleted(ts, index)[index] == ts[index + 1]
    ensures Completed(Deleted(ts, index), index) == Deleted(Completed(ts, index + 1), index)
  {
  }

  /** Every handler keeps the invariant that each stored label is non-empty
      and stripped. */
  lemma HandlersKeepWellFormed(ts: seq<Task>, input: string, index: int)
    requires AllWellFormed(ts)
    ensures AllWellFormed(Added(ts, input))
    ensures AllWellFormed(Completed(ts, index))
    ensures AllWellFormed(Deleted(ts, index))
  {
  }

  /** No handler turns a completed task back into an open one: a task that is
      done before the call is done afterwards, at its position after the call. */
  lemma HandlersNeverReopen(ts: seq<Task>, input: string, index: int)
    ensures forall k :: 0 <= k < |ts| && ts[k].done ==> Added(ts, input)[k].done
    ensures forall k :: 0 <= k < |ts| && ts[k].done ==> Completed(ts, index)[k].done
    ensures forall k :: 0 <= k < |ts| && ts[k].done && !(InRange(ts, index) && k == index) ==>
      Deleted(ts, index)[if InRange(ts, index) && k > index then k - 1 else k].done
  {
  }

  // ---------------------------------------------------------------------
  // The module-level list and its handlers.
  // ---------------------------------------------------------------------

  /** The application's task list, `tasks`, with the bodies of the `add`,
      `complete` and `delete` handlers as methods. */
  class TaskList {
    var tasks: seq<Task>

    ghost predicate Valid()
      reads this
    {
      AllWellFormed(tasks)
    }

    /** The list holds the single open task "Test" when the application
        starts. */
    constructor ()
      ensures tasks == Initial()
      ensures Valid()
    {
      tasks := Initial();
    }

    /** `add`: strip the submitted text and append it as an open task if
        anything is left. */
    method Add(input: string)
      modifies this
      ensures tasks == Added(old(tasks), input)
      ensures old(Valid()) ==> Valid()
    {
      var t := Strip(input);
      if t != [] {
        tasks := tasks + [Task(t, false)];
      }
      if old(Valid()) {
        HandlersKeepWellFormed(old(tasks), input, 0);
      }
    }

    /** `complete`: mark the task at `index` as done if the index names one. */
    method Complete(index: int)
      modifies this
      ensures tasks == Completed(old(tasks), index)
      ensures old(Valid()) ==> Valid()
    {
      if 0 <= index < |tasks| {
        tasks := tasks[index := tasks[index].(done := true)];
      }
      if old(Valid()) {
        HandlersKeepWellFormed(old(tasks), [], index);
      }
    }

    /** `delete`: remove the task at `index` if the index names one. */
    method Delete(index: int)
      modifies this
      ensures tasks == Deleted(old(tasks), index)
      ensures old(Valid()) ==> Valid()
    {
      if 0 <= index < |tasks| {
        tasks := tasks[..index] + tasks[index + 1..];
      }
      if old(Valid()) {
        HandlersKeepWellFormed(old(tasks), [], index);
      }
    }
  }
}

/** A short sequence of requests against a fresh list, showing what callers
    can conclude from the handlers' contracts alone. */
module TodoSession {
  import opened PyString
  import opened Todo

  /** Stripping a form value with surrounding blanks. */
  lemma StripExample()
    ensures Strip(" Buy milk\n") == "Buy milk"
  {
    var s := " Buy milk\n";
    assert s[..1] == " " && s[9..] == "\n" && s[1..9] == "Buy milk";
    assert IsStripOf(s, "Buy milk");
    StripUnique(s, "Buy milk");
  }

  method Session()
  {
    var list := new TaskList();
    StripExample();
    list.Add(" Buy milk\n");
    assert list.tasks == [Task("Test", false), Task("Buy milk", false)];
    list.Add(" \t ");
    assert list.tasks == [Task("Test", false), Task("Buy milk", false)];
    list.Delete(0);
    list.Complete(0);
    assert list.tasks == [Task("Buy milk", true)];
    list.Complete(5);
    list.Delete(-1);
    assert list.tasks == [Task("Buy milk", true)];
    assert list.Valid();
  }
}
