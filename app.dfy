/**
 * The state of the `App` component and its event handlers. Each piece of React
 * state is a field; each handler is a method that may change only the fields
 * whose setters it calls, and that sets them to what the list functions of
 * `TaskList` compute from the state it started from.
 */
module App {
  import opened Wrappers
  import opened JsString
  import opened TaskList
  import DisplayMode
  import opened Hydration

  class TodoApp {
    var tasks: seq<Task>
    var input: string
    var editId: Option<int>
    var editText: string
    var filter: string
    var mode: DisplayMode.Mode

    /** The first render: the mode and the list come from storage, the input
        and the edit session are empty and the filter shows everything. */
    constructor (storedMode: Option<string>, storedTasks: Option<string>, parse: string -> Parsed)
      ensures mode == DisplayMode.InitialMode(storedMode)
      ensures tasks == InitialTasks(storedTasks, parse)
      ensures input == "" && editId == None && editText == "" && filter == "all"
    {
      mode := DisplayMode.InitialMode(storedMode);
      tasks := InitialTasks(storedTasks, parse);
      input := "";
      editId := None;
      editText := "";
      filter := "all";
    }

    /** `filteredTasks`: the tasks the list shows, `FilteredTasks` of the
        current tasks and filter (its contract and `ViewsPartition` say what
        that is). */
    function Visible(): seq<Task>
      reads this
    {
      FilteredTasks(tasks, filter)
    }

    /** Typing in the new-task field. */
    method SetInput(text: string)
      modifies this`input
      ensures input == text
    {
      input := text;
    }

    /** `handleAddTask`, with `id` the value of the clock at the call. A blank
        input changes nothing; otherwise the trimmed input is appended as an
        incomplete task and the field is cleared. */
    method AddTask(id: int)
      modifies this`tasks, this`input
      ensures tasks == Added(old(tasks), old(input), id)
      ensures |tasks| == if AllWhitespace(old(input)) then |old(tasks)| else |old(tasks)| + 1
      ensures input == if AllWhitespace(old(input)) then old(input) else ""
    {
      var text := Trim(input);
      if text == "" {
        return;
      }
      tasks := tasks + [Task(id, text, false)];
      input := "";
    }

    /** `handleEditTask`: opens an edit session on `id` with `text` as the draft,
        replacing any session already open; the list is untouched. */
    method BeginEdit(id: int, text: string)
      modifies this`editId, this`editText
      ensures editId == Some(id) && editText == text
    {
      editId := Some(id);
      editText := text;
    }

    /** Typing in the edit field of the task being edited. */
    method SetEditText(text: string)
      modifies this`editText
      ensures editText == text
    {
      editText := text;
    }

    /** `handleSaveEdit`: every task with the id gets the draft as its text,
        untrimmed, and the edit session is closed. */
    method SaveEdit(id: int)
      modifies this`tasks, this`editId, this`editText
      ensures tasks == Renamed(old(tasks), id, old(editText))
      ensures |tasks| == |old(tasks)|
      ensures editId == None && editText == ""
    {
      tasks := Renamed(tasks, id, editText);
      editId := None;
      editText := "";
    }

    /** `handleCancelEdit`: closes the edit session; the list is untouched. */
    method CancelEdit()
      modifies this`editId, this`editText
      ensures editId == None && editText == ""
    {
      editId := None;
      editText := "";
    }

    /** `handleDeleteTask`: keeps the tasks whose id differs, in order. */
    method DeleteTask(id: int)
      modifies this`tasks
      ensures tasks == Deleted(old(tasks), id)
      ensures !HasId(tasks, id)
    {
      tasks := Deleted(tasks, id);
    }

    /** `handleToggleCompleted`: flips `completed` on the tasks with the id. */
    method ToggleCompleted(id: int)
      modifies this`tasks
      ensures tasks == Toggled(old(tasks), id)
      ensures |tasks| == |old(tasks)|
    {
      tasks := Toggled(tasks, id);
    }

    /** One of the three filter buttons. */
    method SetFilter(f: string)
      modifies this`filter
      ensures filter == f
    {
      filter := f;
    }

    /** The light/dark button in the header. */
    method ToggleMode()
      modifies this`mode
      ensures mode == DisplayMode.Toggle(old(mode)) && mode != old(mode)
    {
      mode := DisplayMode.Toggle(mode);
    }
  }

  /** Start with nothing stored, add "Buy milk", complete it, look at both
      views, then delete it. */
  method BuyMilkScenario() {
    var app := new TodoApp(None, None, _ => Unparsable);
    assert app.tasks == [];
    app.SetInput("Buy milk");
    assert !AllWhitespace(app.input) by { assert !IsWhitespace(app.input[0]); }
    assert Trim(app.input) == "Buy milk" by {
      assert LeadingWhitespace(app.input) == 0 && TrailingWhitespace(app.input) == 0;
    }
    app.AddTask(1);
    assert app.tasks == [Task(1, "Buy milk", false)];
    assert app.input == "";
    app.ToggleCompleted(1);
    assert app.tasks == [Task(1, "Buy milk", true)];
    app.SetFilter("incomplete");
    assert app.Visible() == [];
    app.SetFilter("completed");
    assert app.Visible() == app.tasks by {
      assert Filter(app.tasks, IsDone) == [app.tasks[0]] + Filter([], IsDone);
    }
    app.DeleteTask(1);
    assert app.tasks == [] by {
      assert Filter([Task(1, "Buy milk", true)], NotId(1)) == Filter([], NotId(1));
    }
  }

  /** Editing a task and saving changes its text; cancelling instead keeps it. */
  method EditScenario() {
    var stored := [Task(7, "Buy milk", false)];
    var app := new TodoApp(None, Some("[...]"), _ => AnArray(stored));
    assert app.tasks == stored;
    app.BeginEdit(7, "Buy milk");
    app.CancelEdit();
    assert app.tasks == [Task(7, "Buy milk", false)];
    assert app.editId == None;
    app.BeginEdit(7, "Buy milk");
    app.SetEditText("Buy bread");
    app.SaveEdit(7);
    assert app.tasks == [Task(7, "Buy bread", false)];
    assert app.editId == None && app.editText == "";
  }
}
