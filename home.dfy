/** The state of the `Home` page component and the handlers that change it.
    The component holds the task list and the pending input text; the
    browser's `localStorage` contributes one slot, under the key "my-tasks",
    which the handlers overwrite with a snapshot of the list.

    `JSON.stringify` and `JSON.parse` are taken as a faithful round trip, so
    the slot holds the snapshot itself. Each handler is one atomic step, and
    like the source's closures it reads the state of the render it was
    created in: `tasks` inside a handler is the list before that handler's
    own `setTasks` takes effect. */
module Home {
  import opened Wrappers
  import opened Strings
  import opened Tasks

  class Home {
    var tasks: seq<Task>
    var newTask: string
    /** `localStorage["my-tasks"]`; `None` when the key is absent. */
    var storage: Option<seq<Task>>

    /** The stored snapshot is exactly the in-memory list. */
    predicate Persisted()
      reads this
    {
      storage == Some(tasks)
    }

    /** Every task in memory and in the stored snapshot is well formed. */
    predicate Valid()
      reads this
    {
      WellFormed(tasks) && (storage.Some? ==> WellFormed(storage.value))
    }

    /** First render: `useState([])`, `useState("")`, and whatever the
        browser already holds under the key. */
    constructor (stored: Option<seq<Task>>)
      ensures tasks == [] && newTask == "" && storage == stored
    {
      tasks := [];
      newTask := "";
      storage := stored;
    }

    /** The mount effect: a stored snapshot replaces the list wholesale;
        with the key absent the list keeps the value it had. */
    method Hydrate()
      modifies this
      ensures old(storage).Some? ==> tasks == old(storage).value
      ensures old(storage).None? ==> tasks == old(tasks)
      ensures newTask == old(newTask) && storage == old(storage)
      ensures old(storage).Some? ==> Persisted()
      ensures old(Valid()) ==> Valid()
    {
      match storage
      case Some(loaded) =>
        tasks := loaded;
      case None =>
    }

    /** The input's `onChange`: the pending text follows what is typed. */
    method SetNewTask(value: string)
      modifies this
      ensures newTask == value
      ensures tasks == old(tasks) && storage == old(storage)
    {
      newTask := value;
    }

    /** Form submission. Blank input is ignored. Otherwise the trimmed text
        becomes a new, not completed, last task and the input is cleared,
        but the snapshot written to storage is the list from BEFORE the
        append, so storage lags the list by exactly the new task. */
    method HandleSubmit()
      modifies this
      ensures Trim(old(newTask)) == "" ==>
        tasks == old(tasks) && newTask == old(newTask) && storage == old(storage)
      ensures Trim(old(newTask)) != "" ==>
        && tasks == Append(old(tasks), NewTask(old(newTask)))
        && newTask == ""
        && storage == Some(old(tasks))
      ensures Trim(old(newTask)) != "" ==>
        !Persisted() && storage == Some(tasks[..|tasks| - 1])
      ensures old(Valid()) ==> Valid()
    {
      var rendered := tasks;
      var input := newTask;
      if Trim(input) != "" {
        var added := Append(rendered, NewTask(input));
        if WellFormed(rendered) {
          AppendNewTaskWellFormed(rendered, input);
        }
        tasks := added;
        newTask := "";
        storage := Some(rendered);
        assert rendered == tasks[..|tasks| - 1];
      }
    }

    /** The delete button of the row at `index`: the list without that
        task, written straight to storage. */
    method RemoveTask(index: int)
      modifies this
      ensures tasks == Remove(old(tasks), index)
      ensures 0 <= index < |old(tasks)| ==>
        tasks == old(tasks)[..index] + old(tasks)[index + 1..]
      ensures !(0 <= index < |old(tasks)|) ==> tasks == old(tasks)
      ensures newTask == old(newTask) && Persisted()
      ensures old(Valid()) ==> Valid()
    {
      RemoveSplice(tasks, index);
      if Valid() {
        RemoveWellFormed(tasks, index);
      }
      var updated := Remove(tasks, index);
      tasks := updated;
      storage := Some(updated);
    }

    /** The checkbox of the row at `index`: that task's `completed` flips,
        and the new list is written straight to storage. */
    method ToggleCompletion(index: int)
      modifies this
      ensures tasks == Toggle(old(tasks), index)
      ensures |tasks| == |old(tasks)|
      ensures 0 <= index < |tasks| ==> tasks[index] == Flip(old(tasks)[index])
      ensures forall j :: 0 <= j < |tasks| && j != index ==> tasks[j] == old(tasks)[j]
      ensures newTask == old(newTask) && Persisted()
      ensures old(Valid()) ==> Valid()
    {
      ToggleAt(tasks, index);
      if Valid() {
        ToggleWellFormed(tasks, index);
      }
      var updated := Toggle(tasks, index);
      tasks := updated;
      storage := Some(updated);
    }

    /** The sync button: storage is overwritten with the current list and
        nothing else changes, so a second sync changes nothing. */
    method Sync()
      modifies this
      ensures tasks == old(tasks) && newTask == old(newTask)
      ensures Persisted()
      ensures old(Persisted()) ==> storage == old(storage)
      ensures old(Valid()) ==> Valid()
    {
      storage := Some(tasks);
    }
  }

  /** Start empty and add "buy milk" and "walk dog": each add leaves
      storage one task behind the list. */
  method ScenarioAddTwice()
  {
    var home := new Home(None);
    home.Hydrate();

    home.SetNewTask("buy milk");
    // The typed text has no white space at either end, so it is added as typed.
    assert IsTrimmed(home.newTask);
    TrimOfTrimmed("buy milk");
    home.HandleSubmit();
    assert home.tasks == [Task("buy milk", false)];
    assert home.storage == Some([]);

    home.SetNewTask("walk dog");
    assert IsTrimmed(home.newTask);
    TrimOfTrimmed("walk dog");
    home.HandleSubmit();
    assert home.tasks == [Task("buy milk", false), Task("walk dog", false)];
    assert home.storage == Some([Task("buy milk", false)]);

    home.Sync();
    assert home.storage == Some([Task("buy milk", false), Task("walk dog", false)]);
  }

  /** From the list "buy milk", "walk dog", toggle the first task and remove
      the second: one completed "buy milk" is left, and storage has it. */
  method ScenarioToggleRemove()
  {
    var home := new Home(Some([Task("buy milk", false), Task("walk dog", false)]));
    home.Hydrate();
    home.ToggleCompletion(0);
    assert home.tasks == [Task("buy milk", true), Task("walk dog", false)];
    home.RemoveTask(1);
    assert home.tasks == [Task("buy milk", true)];
    assert home.storage == Some([Task("buy milk", true)]);
  }

  /** Mounting with a stored one-task snapshot yields exactly that task;
      mounting with the key absent keeps the empty list. */
  method ScenarioHydrate()
  {
    var stored := new Home(Some([Task("x", false)]));
    stored.Hydrate();
    assert stored.tasks == [Task("x", false)];

    var empty := new Home(None);
    empty.Hydrate();
    assert empty.tasks == [] && empty.storage == None;
  }
}
