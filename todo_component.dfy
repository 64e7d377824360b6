/** The Todo component's state and handlers (src/components/ToDo.tsx). Each
    React state variable is a field; each handler is a method that assigns
    the new value its pure counterpart in TaskList computes, as one atomic
    step (React's batching and re-rendering are not modelled). */
module TodoComponent {
  import opened JsString
  import opened SeqFilter
  import opened TaskList

  datatype Option<T> = None | Some(value: T)

  class Todo {
    var tasks: seq<Task>
    var newTaskText: string
    var filter: Filter
    /** Set once the stored tasks have been read; until then nothing is saved. */
    var isLoaded: bool

    /** The `useState` initial values. */
    constructor ()
      ensures tasks == [] && newTaskText == "" && filter == All && !isLoaded
    {
      tasks, newTaskText, filter, isLoaded := [], "", All, false;
    }

    /** The mount effect. `stored` is the parsed value of the `tasks` key of
        local storage, or None when the key is missing or empty; a present
        value replaces the list, and either way loading is then complete. */
    method LoadEffect(stored: Option<seq<Task>>)
      modifies this`tasks, this`isLoaded
      ensures tasks == (if stored.Some? then stored.value else old(tasks))
      ensures isLoaded
    {
      if stored.Some? {
        tasks := stored.value;
      }
      isLoaded := true;
    }

    /** The save effect, given what the `tasks` key holds: before loading has
        completed it writes nothing, so the key keeps its value; afterwards
        the key holds the current list. */
    method SaveEffect(storage: Option<seq<Task>>) returns (written: Option<seq<Task>>)
      ensures !isLoaded ==> written == storage
      ensures isLoaded ==> written == Some(tasks)
    {
      written := if isLoaded then Some(tasks) else storage;
    }

    /** The input's `onChange`: the text field follows what the user typed. */
    method SetNewTaskText(text: string)
      modifies this`newTaskText
      ensures newTaskText == text
    {
      newTaskText := text;
    }

    /** The three filter buttons. */
    method SetFilter(f: Filter)
      modifies this`filter
      ensures filter == f
    {
      filter := f;
    }

    /** `addTask`, with the clock reading that becomes the new id as `id`. */
    method AddTask(id: int)
      modifies this`tasks, this`newTaskText
      ensures (tasks, newTaskText) == TaskList.AddTask(old(tasks), old(newTaskText), id)
      ensures AllWhitespace(old(newTaskText)) ==>
        tasks == old(tasks) && newTaskText == old(newTaskText)
      ensures !AllWhitespace(old(newTaskText)) ==>
        tasks == old(tasks) + [Task(id, old(newTaskText), false)] && newTaskText == ""
    {
      var r := TaskList.AddTask(tasks, newTaskText, id);
      tasks, newTaskText := r.0, r.1;
    }

    /** `toggleTaskCompletion`. */
    method ToggleTaskCompletion(taskId: int)
      modifies this`tasks
      ensures tasks == TaskList.ToggleTaskCompletion(old(tasks), taskId)
      ensures |tasks| == |old(tasks)|
      ensures forall i :: 0 <= i < |tasks| ==>
        tasks[i] == Flip(old(tasks)[i], taskId)
    {
      ToggleSpec(tasks, taskId);
      tasks := TaskList.ToggleTaskCompletion(tasks, taskId);
    }

    /** `deleteTask`. */
    method DeleteTask(taskId: int)
      modifies this`tasks
      ensures tasks == TaskList.DeleteTask(old(tasks), taskId)
      ensures IsSubsequence(tasks, old(tasks))
      ensures forall t :: t in tasks <==> t in old(tasks) && t.id != taskId
      ensures forall t :: (multiset(tasks)[t]
        == if t.id == taskId then 0 else multiset(old(tasks))[t])
    {
      DeleteSpec(tasks, taskId);
      tasks := TaskList.DeleteTask(tasks, taskId);
    }

    /** `clearCompletedTasks`. */
    method ClearCompletedTasks()
      modifies this`tasks
      ensures tasks == TaskList.ClearCompletedTasks(old(tasks))
      ensures IsSubsequence(tasks, old(tasks))
      ensures forall t :: t in tasks <==> t in old(tasks) && !t.completed
    {
      ClearCompletedSpec(tasks);
      tasks := TaskList.ClearCompletedTasks(tasks);
    }

    /** `filteredTasks`: the list as the current filter shows it. It changes
        no field. */
    method FilteredTasks() returns (view: seq<Task>)
      ensures view == TaskList.FilteredTasks(tasks, filter)
      ensures IsSubsequence(view, tasks)
      ensures forall t :: t in view <==> t in tasks && Shows(filter, t)
    {
      FilteredTasksSpec(tasks, filter);
      view := TaskList.FilteredTasks(tasks, filter);
    }
  }

  /** Mounting the component against local storage holding `storage`. React
      runs the load effect first and the save effect after it, but that save
      still sees the first render's state, in which `isLoaded` is false, so
      it writes nothing. Because each step here assigns the fields at once,
      that snapshot is reproduced by running the first save before the load.
      The load installs the stored list, and the save effect of the next
      render writes it back. So mounting never overwrites stored tasks with
      the empty initial list; without stored tasks it writes an empty one. */
  method Mount(storage: Option<seq<Task>>) returns (written: Option<seq<Task>>)
    ensures written == Some(if storage.Some? then storage.value else [])
  {
    var todo := new Todo();
    var first := todo.SaveEffect(storage);
    assert first == storage;
    todo.LoadEffect(storage);
    written := todo.SaveEffect(first);
  }
}
