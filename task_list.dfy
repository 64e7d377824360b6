/** The task list of the Todo component (src/components/ToDo.tsx): its
    records, the view filter, and each event handler as a pure function from
    the old state to the new one, with the lemmas that say what it does. */
module TaskList {
  import opened JsString
  import opened SeqFilter

  /** One to-do item. Ids come from the clock and are not assumed unique. */
  datatype Task = Task(id: int, text: string, completed: bool)

  /** Which tasks the list shows. */
  datatype Filter = All | Active | Completed

  /** The test of `tasks.filter((task) => !task.completed)`. */
  predicate IsActive(t: Task) {
    !t.completed
  }

  /** The test of `tasks.filter((task) => task.completed)`. */
  predicate IsDone(t: Task) {
    t.completed
  }

  /** The test of `tasks.filter((task) => task.id !== taskId)`. */
  function HasOtherId(taskId: int): Task -> bool {
    (t: Task) => t.id != taskId
  }

  /** Reference meaning of a filter: whether it shows task `t`. */
  predicate Shows(filter: Filter, t: Task) {
    filter.All? || (filter.Active? && !t.completed) || (filter.Completed? && t.completed)
  }

  // ---------------------------------------------------------------------
  // addTask

  /** `addTask`: the new list and the new input text. When the input trims
      to the empty string nothing changes; otherwise the untrimmed input is
      appended as an open task with id `id` and the input is cleared. */
  function AddTask(tasks: seq<Task>, newTaskText: string, id: int): (r: (seq<Task>, string))
    ensures AllWhitespace(newTaskText) ==> r == (tasks, newTaskText)
    ensures !AllWhitespace(newTaskText) ==>
      |r.0| == |tasks| + 1 && r.0[..|tasks|] == tasks
      && r.0[|tasks|] == Task(id, newTaskText, false) && r.1 == ""
  {
    if Trim(newTaskText) == "" then (tasks, newTaskText)
    else (tasks + [Task(id, newTaskText, false)], "")
  }

  // ---------------------------------------------------------------------
  // toggleTaskCompletion

  /** The callback of `tasks.map` in `toggleTaskCompletion`. */
  function Flip(t: Task, taskId: int): Task {
    if t.id == taskId then t.(completed := !t.completed) else t
  }

  /** `toggleTaskCompletion`: every task whose id is `taskId` has its
      completion flag flipped. */
  function ToggleTaskCompletion(tasks: seq<Task>, taskId: int): seq<Task> {
    if tasks == [] then []
    else [Flip(tasks[0], taskId)] + ToggleTaskCompletion(tasks[1..], taskId)
  }

  /** Toggling keeps the length, the order and each task's id and text; it
      flips `completed` on exactly the tasks whose id is `taskId` (all of
      them, should ids collide) and leaves every other task as it was. */
  lemma {:induction false} ToggleSpec(tasks: seq<Task>, taskId: int)
    ensures |ToggleTaskCompletion(tasks, taskId)| == |tasks|
    ensures forall i :: 0 <= i < |tasks| ==>
      var t, u := tasks[i], ToggleTaskCompletion(tasks, taskId)[i];
      u.id == t.id && u.text == t.text
      && (u.completed <==> (if t.id == taskId then !t.completed else t.completed))
    ensures forall i :: 0 <= i < |tasks| && tasks[i].id != taskId ==>
      ToggleTaskCompletion(tasks, taskId)[i] == tasks[i]
  {
    if tasks != [] {
      ToggleSpec(tasks[1..], taskId);
      var r := ToggleTaskCompletion(tasks, taskId);
      assert forall i :: 1 <= i < |tasks| ==>
        r[i] == ToggleTaskCompletion(tasks[1..], taskId)[i - 1] && tasks[i] == tasks[1..][i - 1];
    }
  }

  /** Toggling an id that no task has changes nothing. */
  lemma {:induction false} ToggleAbsentId(tasks: seq<Task>, taskId: int)
    requires forall i :: 0 <= i < |tasks| ==> tasks[i].id != taskId
    ensures ToggleTaskCompletion(tasks, taskId) == tasks
  {
    if tasks != [] {
      ToggleAbsentId(tasks[1..], taskId);
      assert tasks == [tasks[0]] + tasks[1..];
    }
  }

  /** Toggling the same id twice restores the list. */
  lemma {:induction false} ToggleTwice(tasks: seq<Task>, taskId: int)
    ensures ToggleTaskCompletion(ToggleTaskCompletion(tasks, taskId), taskId) == tasks
  {
    if tasks != [] {
      ToggleTwice(tasks[1..], taskId);
      var once := ToggleTaskCompletion(tasks, taskId);
      assert once[0] == Flip(tasks[0], taskId) && once[1..] == ToggleTaskCompletion(tasks[1..], taskId);
      assert tasks == [tasks[0]] + tasks[1..];
    }
  }

  // ---------------------------------------------------------------------
  // deleteTask

  /** `deleteTask`: the tasks whose id is not `taskId`. */
  function DeleteTask(tasks: seq<Task>, taskId: int): seq<Task> {
    Keep(tasks, HasOtherId(taskId))
  }

  /** Deleting yields the order-preserving subsequence of the tasks with
      another id: a task remains exactly when it was there and its id is not
      `taskId`, so none with that id remains, and every task with another id
      remains as often as it occurred (identical records included); the list
      never grows, shrinks when some task had that id, and stays as it was
      when none had. */
  lemma DeleteSpec(tasks: seq<Task>, taskId: int)
    ensures IsSubsequence(DeleteTask(tasks, taskId), tasks)
    ensures forall t :: t in DeleteTask(tasks, taskId) <==> t in tasks && t.id != taskId
    ensures forall t :: (multiset(DeleteTask(tasks, taskId))[t]
      == if t.id == taskId then 0 else multiset(tasks)[t])
    ensures |DeleteTask(tasks, taskId)| <= |tasks|
    ensures (exists i :: 0 <= i < |tasks| && tasks[i].id == taskId)
      <==> |DeleteTask(tasks, taskId)| < |tasks|
    ensures (forall i :: 0 <= i < |tasks| ==> tasks[i].id != taskId)
      ==> DeleteTask(tasks, taskId) == tasks
  {
    var keep := HasOtherId(taskId);
    KeepIsSubsequence(tasks, keep);
    KeepMembership(tasks, keep);
    KeepIsShorter(tasks, keep);
    KeepUnchanged(tasks, keep);
    var gone := (t: Task) => t.id == taskId;
    KeepSplit(tasks, keep, gone);
    KeepMembership(tasks, gone);
    forall t ensures multiset(DeleteTask(tasks, taskId))[t]
      == if t.id == taskId then 0 else multiset(tasks)[t]
    {
      if t.id == taskId {
        assert t !in DeleteTask(tasks, taskId);
      } else {
        assert t !in Keep(tasks, gone);
      }
    }
    if exists i :: 0 <= i < |tasks| && tasks[i].id == taskId {
      var i :| 0 <= i < |tasks| && tasks[i].id == taskId;
      DeleteShrinks(tasks, taskId, i);
    }
  }

  /** Deleting an id some task has removes at least that task. */
  lemma {:induction false} DeleteShrinks(tasks: seq<Task>, taskId: int, i: nat)
    requires i < |tasks| && tasks[i].id == taskId
    ensures |DeleteTask(tasks, taskId)| < |tasks|
  {
    if i == 0 {
      KeepIsShorter(tasks[1..], HasOtherId(taskId));
    } else {
      DeleteShrinks(tasks[1..], taskId, i - 1);
    }
  }

  // ---------------------------------------------------------------------
  // clearCompletedTasks

  /** `clearCompletedTasks`: the tasks that are not completed. */
  function ClearCompletedTasks(tasks: seq<Task>): seq<Task> {
    Keep(tasks, IsActive)
  }

  /** Clearing yields the order-preserving subsequence of the open tasks:
      a task remains exactly when it was there and is not completed, the
      tasks removed are the completed ones, clearing again changes nothing,
      and the result is what the 'active' view shows. */
  lemma ClearCompletedSpec(tasks: seq<Task>)
    ensures IsSubsequence(ClearCompletedTasks(tasks), tasks)
    ensures forall t :: t in ClearCompletedTasks(tasks) <==> t in tasks && !t.completed
    ensures multiset(tasks) - multiset(ClearCompletedTasks(tasks))
      == multiset(FilteredTasks(tasks, Completed))
    ensures ClearCompletedTasks(ClearCompletedTasks(tasks)) == ClearCompletedTasks(tasks)
    ensures ClearCompletedTasks(tasks) == FilteredTasks(tasks, Active)
  {
    KeepIsSubsequence(tasks, IsActive);
    KeepMembership(tasks, IsActive);
    KeepSplit(tasks, IsActive, IsDone);
    KeepIdempotent(tasks, IsActive);
  }

  // ---------------------------------------------------------------------
  // filteredTasks

  /** `filteredTasks`: the tasks the current filter shows. */
  function FilteredTasks(tasks: seq<Task>, filter: Filter): seq<Task> {
    match filter
    case Active => Keep(tasks, IsActive)
    case Completed => Keep(tasks, IsDone)
    case All => tasks
  }

  /** Every view is an order-preserving subsequence holding exactly the
      tasks its filter shows; the 'all' view is the list itself. */
  lemma FilteredTasksSpec(tasks: seq<Task>, filter: Filter)
    ensures IsSubsequence(FilteredTasks(tasks, filter), tasks)
    ensures forall t :: t in FilteredTasks(tasks, filter) <==> t in tasks && Shows(filter, t)
    ensures filter == All ==> FilteredTasks(tasks, filter) == tasks
  {
    match filter
    case Active =>
      KeepIsSubsequence(tasks, IsActive);
      KeepMembership(tasks, IsActive);
    case Completed =>
      KeepIsSubsequence(tasks, IsDone);
      KeepMembership(tasks, IsDone);
    case All =>
      KeepUnchanged(tasks, (t: Task) => true);
      KeepIsSubsequence(tasks, (t: Task) => true);
  }

  /** The 'active' and 'completed' views share no task, their lengths add up
      to the length of the list, and together they hold each task exactly as
      often as the list does. */
  lemma ActiveCompletedPartition(tasks: seq<Task>)
    ensures forall t :: !(t in FilteredTasks(tasks, Active) && t in FilteredTasks(tasks, Completed))
    ensures |FilteredTasks(tasks, Active)| + |FilteredTasks(tasks, Completed)| == |tasks|
    ensures multiset(FilteredTasks(tasks, Active)) + multiset(FilteredTasks(tasks, Completed))
      == multiset(tasks)
  {
    KeepMembership(tasks, IsActive);
    KeepMembership(tasks, IsDone);
    KeepSplit(tasks, IsActive, IsDone);
  }

  // ---------------------------------------------------------------------
  // The component tests, replayed on the model

  /** Input that starts with a visible character is added as an open task
      and clears the input. */
  lemma AddVisible(tasks: seq<Task>, text: string, id: int)
    requires text != [] && !IsWhitespace(text[0])
    ensures AddTask(tasks, text, id) == (tasks + [Task(id, text, false)], "")
  {
  }

  /** Adding "New Task" to the empty list shows it, as an open task. */
  lemma AddScenario(id: int)
    ensures AddTask([], "New Task", id) == ([Task(id, "New Task", false)], "")
  {
    AddVisible([], "New Task", id);
  }

  /** Adding "Task to be deleted" and deleting it by its id empties the
      list. */
  lemma DeleteScenario(id: int)
    ensures DeleteTask(AddTask([], "Task to be deleted", id).0, id) == []
  {
    AddVisible([], "Task to be deleted", id);
    DeleteOnlyTask(Task(id, "Task to be deleted", false));
  }

  /** Deleting the only task, by its own id, empties the list. */
  lemma DeleteOnlyTask(t: Task)
    ensures DeleteTask([t], t.id) == []
  {
    assert [t][1..] == [];
    assert !HasOtherId(t.id)(t);
    assert Keep([t], HasOtherId(t.id)) == Keep([], HasOtherId(t.id));
  }

  /** Adding "New Task" and toggling its checkbox completes it. */
  lemma ToggleScenario(id: int)
    ensures ToggleTaskCompletion(AddTask([], "New Task", id).0, id) == [Task(id, "New Task", true)]
  {
    AddVisible([], "New Task", id);
    assert [Task(id, "New Task", false)][1..] == [];
  }

  /** Adding "Active Task" and then "Completed Task", toggling the second
      and choosing the 'completed' filter shows the completed task and hides
      the open one. The ids are two clock readings; were they equal, the
      toggle would complete both tasks and the view would show both. */
  lemma FilterScenario(activeId: int, completedId: int)
    requires activeId != completedId
    ensures var first := AddTask([], "Active Task", activeId);
      var second := AddTask(first.0, "Completed Task", completedId);
      var view := FilteredTasks(ToggleTaskCompletion(second.0, completedId), Completed);
      view == [Task(completedId, "Completed Task", true)]
      && (forall t :: t in view ==> t.text != "Active Task")
  {
    var open, done := "Active Task", "Completed Task";
    var a, c := Task(activeId, open, false), Task(completedId, done, false);
    var c' := Task(completedId, done, true);
    AddVisible([], open, activeId);
    AddVisible([a], done, completedId);
    TwoTasks(a, c, c', completedId);
    assert open[0] != done[0];
  }

  /** Toggling the second of two tasks with different ids and taking the
      'completed' view leaves that task alone, completed. */
  lemma TwoTasks(a: Task, c: Task, c': Task, completedId: int)
    requires a.id != completedId && !a.completed && c.id == completedId && !c.completed
    requires c' == c.(completed := true)
    ensures FilteredTasks(ToggleTaskCompletion([a] + [c], completedId), Completed) == [c']
  {
    assert [a, c][1..] == [c] && [c][1..] == [];
    assert ToggleTaskCompletion([c], completedId) == [c'];
    assert ToggleTaskCompletion([a, c], completedId) == [a, c'];
    assert [a, c'][1..] == [c'] && [c'][1..] == [];
    assert Keep([c'], IsDone) == [c'];
  }

  /** Adding "Completed Task", toggling it and clearing the completed tasks
      empties the list. */
  lemma ClearScenario(id: int)
    ensures ClearCompletedTasks(ToggleTaskCompletion(AddTask([], "Completed Task", id).0, id)) == []
  {
    AddVisible([], "Completed Task", id);
    ToggleThenClearOnlyTask(Task(id, "Completed Task", false));
  }

  /** Toggling the only task, an open one, and clearing the completed tasks
      empties the list. */
  lemma ToggleThenClearOnlyTask(t: Task)
    requires !t.completed
    ensures ClearCompletedTasks(ToggleTaskCompletion([t], t.id)) == []
  {
    var done := t.(completed := true);
    assert [t][1..] == [] && [done][1..] == [];
    assert ToggleTaskCompletion([t], t.id) == [done];
    assert Keep([done], IsActive) == Keep([], IsActive);
  }
}
