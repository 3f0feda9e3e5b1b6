/** The task list and the three list transformations the page applies to it:
    the spread-append of a new task, `filter` by position (remove) and `map`
    by position (toggle). Identity is positional: a task is addressed only by
    its index in the list. */
module Tasks {
  import opened Strings

  /** One to-do item, stored as `{text, completed}`. */
  datatype Task = Task(text: string, completed: bool)

  /** The record built for a new task from the pending input: not
      completed, and well formed exactly when the input is not blank. */
  function NewTask(input: string): (t: Task)
    ensures !t.completed
    ensures WellFormedTask(t) <==> Trim(input) != ""
  {
    Task(Trim(input), false)
  }

  /** White space around the input makes no difference to the task built
      from it. */
  lemma NewTaskOfTrimmed(input: string)
    ensures NewTask(Trim(input)) == NewTask(input)
  {
    TrimIdempotent(input);
  }

  /** `{...task, completed: !task.completed}`: never the task it started
      from, undone by a second flip, and well formed exactly when the
      original is. */
  function Flip(t: Task): (r: Task)
    ensures r != t
    ensures r.(completed := !r.completed) == t
    ensures WellFormedTask(r) <==> WellFormedTask(t)
  {
    t.(completed := !t.completed)
  }

  /** Non-empty text with no white space at either end: what the add
      handler guarantees of every task it creates. */
  predicate WellFormedTask(t: Task) {
    t.text != [] && IsTrimmed(t.text)
  }

  /** Every task of the list is well formed. */
  predicate WellFormed(s: seq<Task>) {
    forall j :: 0 <= j < |s| ==> WellFormedTask(s[j])
  }

  // ---------------------------------------------------------------------
  // Add: `[...tasks, t]`

  /** The new task goes last and every earlier task keeps its place: the
      list gains exactly `t`, and it is well formed exactly when the old list
      and `t` are. */
  function Append(s: seq<Task>, t: Task): (r: seq<Task>)
    ensures |r| == |s| + 1 && r[..|s|] == s && r[|s|] == t
    ensures multiset(r) == multiset(s) + multiset{t}
    ensures WellFormed(r) <==> WellFormed(s) && WellFormedTask(t)
  {
    s + [t]
  }

  /** A task made from non-blank input is well formed, so appending it keeps
      the whole list well formed. */
  lemma AppendNewTaskWellFormed(s: seq<Task>, input: string)
    requires WellFormed(s)
    requires Trim(input) != ""
    ensures WellFormed(Append(s, NewTask(input)))
  {
  }

  // ---------------------------------------------------------------------
  // Remove: `tasks.filter((_, taskIndex) => taskIndex !== index)`

  /** The `filter` callback run over `s`, whose first element sits at
      position `taskIndex` of the whole list. */
  function FilterOut(s: seq<Task>, index: int, taskIndex: int): (r: seq<Task>)
    ensures |r| <= |s|
    decreases |s|
  {
    if s == [] then []
    else (if taskIndex != index then [s[0]] else []) + FilterOut(s[1..], index, taskIndex + 1)
  }

  /** `tasks.filter((_, taskIndex) => taskIndex !== index)`: one task
      shorter at a valid index, the same length otherwise; `RemoveSplice`
      says which task goes. */
  function Remove(s: seq<Task>, index: int): (r: seq<Task>)
    ensures |r| == if 0 <= index < |s| then |s| - 1 else |s|
  {
    FilterOutSplice(s, index, 0);
    FilterOut(s, index, 0)
  }

  lemma {:induction false} FilterOutSplice(s: seq<Task>, index: int, taskIndex: int)
    ensures FilterOut(s, index, taskIndex) ==
              if taskIndex <= index < taskIndex + |s|
              then s[..index - taskIndex] + s[index - taskIndex + 1..]
              else s
    decreases |s|
  {
    if s != [] {
      FilterOutSplice(s[1..], index, taskIndex + 1);
      if taskIndex < index < taskIndex + |s| {
        var k := index - taskIndex;
        assert [s[0]] + (s[1..][..k - 1] + s[1..][k..]) == s[..k] + s[k + 1..];
      } else if taskIndex != index {
        assert [s[0]] + s[1..] == s;
      }
    }
  }

  /** Removing a valid index splices that one task out; any other index
      (negative or past the end) leaves the list as it is. */
  lemma RemoveSplice(s: seq<Task>, index: int)
    ensures 0 <= index < |s| ==> Remove(s, index) == s[..index] + s[index + 1..]
    ensures !(0 <= index < |s|) ==> Remove(s, index) == s
  {
    FilterOutSplice(s, index, 0);
  }

  /** Removal at a valid index shortens the list by one, keeps the tasks
      before the index in place and shifts the later ones down by one, in
      their original order. */
  lemma RemoveShifts(s: seq<Task>, index: int)
    requires 0 <= index < |s|
    ensures |Remove(s, index)| == |s| - 1
    ensures forall j :: 0 <= j < |s| - 1 ==>
      Remove(s, index)[j] == (if j < index then s[j] else s[j + 1])
  {
    RemoveSplice(s, index);
    SpliceShifts(s, index);
  }

  /** Position by position, the splice without element `i`. */
  lemma SpliceShifts(s: seq<Task>, i: nat)
    requires i < |s|
    ensures |s[..i] + s[i + 1..]| == |s| - 1
    ensures forall j :: 0 <= j < |s| - 1 ==>
      (s[..i] + s[i + 1..])[j] == (if j < i then s[j] else s[j + 1])
  {
  }

  /** Exactly the task at `index` is lost: nothing else disappears and
      nothing is duplicated. */
  lemma RemoveDropsOnlyThatTask(s: seq<Task>, index: int)
    requires 0 <= index < |s|
    ensures multiset(Remove(s, index)) + multiset{s[index]} == multiset(s)
  {
    RemoveSplice(s, index);
    SpliceMultiset(s, index);
  }

  lemma SpliceMultiset(s: seq<Task>, i: nat)
    requires i < |s|
    ensures multiset(s[..i] + s[i + 1..]) + multiset{s[i]} == multiset(s)
  {
    assert s == s[..i] + [s[i]] + s[i + 1..];
  }

  lemma RemoveWellFormed(s: seq<Task>, index: int)
    requires WellFormed(s)
    ensures WellFormed(Remove(s, index))
  {
    RemoveSplice(s, index);
  }

  // ---------------------------------------------------------------------
  // Toggle: `tasks.map((task, taskIndex) => taskIndex === index ? flip(task) : task)`

  /** The `map` callback run over `s`, whose first element sits at position
      `taskIndex` of the whole list. */
  function MapToggle(s: seq<Task>, index: int, taskIndex: int): (r: seq<Task>)
    ensures |r| == |s|
    decreases |s|
  {
    if s == [] then []
    else [if taskIndex == index then Flip(s[0]) else s[0]] + MapToggle(s[1..], index, taskIndex + 1)
  }

  /** `tasks.map(...)` flipping the task at `index`: the same length, and
      every task keeps its text; `ToggleAt` says which flag flips. */
  function Toggle(s: seq<Task>, index: int): (r: seq<Task>)
    ensures |r| == |s|
    ensures forall j :: 0 <= j < |s| ==> r[j].text == s[j].text
  {
    MapToggleAt(s, index, 0);
    MapToggle(s, index, 0)
  }

  lemma {:induction false} MapToggleAt(s: seq<Task>, index: int, taskIndex: int)
    ensures forall j :: 0 <= j < |s| ==>
      MapToggle(s, index, taskIndex)[j] == (if taskIndex + j == index then Flip(s[j]) else s[j])
    decreases |s|
  {
    if s != [] {
      MapToggleAt(s[1..], index, taskIndex + 1);
    }
  }

  /** Toggling keeps the length, flips `completed` of the task at `index`
      only (its text stays), and leaves every other task as it was; an index
      outside the list changes nothing. */
  lemma ToggleAt(s: seq<Task>, index: int)
    ensures |Toggle(s, index)| == |s|
    ensures 0 <= index < |s| ==>
      Toggle(s, index)[index].text == s[index].text &&
      Toggle(s, index)[index].completed == !s[index].completed
    ensures forall j :: 0 <= j < |s| && j != index ==> Toggle(s, index)[j] == s[j]
    ensures !(0 <= index < |s|) ==> Toggle(s, index) == s
  {
    MapToggleAt(s, index, 0);
  }

  /** Toggling the same index twice restores the list. */
  lemma ToggleTwice(s: seq<Task>, index: int)
    ensures Toggle(Toggle(s, index), index) == s
  {
    ToggleAt(s, index);
    ToggleAt(Toggle(s, index), index);
  }

  lemma ToggleWellFormed(s: seq<Task>, index: int)
    requires WellFormed(s)
    ensures WellFormed(Toggle(s, index))
  {
    ToggleAt(s, index);
  }
}
