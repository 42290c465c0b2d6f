/** The page's state: the task list, its saved copy in local storage, the
    selected filter and the edit dialog, with the operations the buttons,
    checkboxes and drag-and-drop trigger. Each operation changes the fields in
    place and is proved to agree with its counterpart in Mutations. */
module Store {
  import opened Text
  import opened Tasks
  import opened Mutations
  import opened View

  class TaskStore {
    /** The in-memory list `tasks`. */
    var tasks: seq<Task>
    /** The `"tasks"` entry of local storage: `None` when nothing is stored. */
    var stored: Option<seq<Task>>
    var currentFilter: FilterMode
    /** The id recorded when the edit dialog was last opened. */
    var currentEditTaskId: Option<int>
    /** Whether the edit dialog is shown. */
    var modalOpen: bool

    /** Memory and storage agree: what `saveTasks` leaves behind. */
    ghost predicate Saved()
      reads this
    {
      stored == Some(tasks)
    }

    /** Page load: the stored list, or the empty list when nothing is stored;
        filter `all`, no edit id, dialog closed. */
    constructor Load(saved: Option<seq<Task>>)
      ensures tasks == (if saved.Some? then saved.value else [])
      ensures stored == saved
      ensures currentFilter == All && currentEditTaskId == None && !modalOpen
    {
      tasks := if saved.Some? then saved.value else [];
      stored := saved;
      currentFilter := All;
      currentEditTaskId := None;
      modalOpen := false;
    }

    /** `addTask` with the form's values, `Date.now()` as `id` and the ISO
        timestamp as `createdAt`. */
    method AddTask(f: Fields, id: int, createdAt: string)
      modifies this`tasks, this`stored
      ensures tasks == Added(old(tasks), f, id, createdAt)
      ensures AllSpace(f.text) ==> tasks == old(tasks) && stored == old(stored)
      ensures !AllSpace(f.text) ==>
        && tasks == old(tasks) + [Task(id, Trim(f.text), false, f.dueDate, f.priority, f.category, createdAt)]
        && Saved()
      ensures old(Saved()) ==> Saved()
      ensures old(WellFormed(tasks)) && id !in IdsOf(old(tasks)) ==> WellFormed(tasks)
    {
      if WellFormed(tasks) && id !in IdsOf(tasks) {
        AddPreservesWellFormed(tasks, f, id, createdAt);
      }
      var taskText := Trim(f.text);
      if taskText == [] {
        return;
      }
      var newTask := Task(id, taskText, false, f.dueDate, f.priority, f.category, createdAt);
      tasks := tasks + [newTask];
      stored := Some(tasks);
    }

    /** `toggleTaskCompletion`: flips the first task with `taskId` and saves;
        an unknown id changes nothing and saves nothing. */
    method ToggleTaskCompletion(taskId: int)
      modifies this`tasks, this`stored
      ensures tasks == Toggled(old(tasks), taskId)
      ensures stored == if FindIndex(old(tasks), taskId) >= 0 then Some(tasks) else old(stored)
      ensures old(Saved()) ==> Saved()
      ensures old(WellFormed(tasks)) ==> WellFormed(tasks)
    {
      if WellFormed(tasks) {
        TogglePreservesWellFormed(tasks, taskId);
      }
      var taskIndex := FindIndex(tasks, taskId);
      if taskIndex != -1 {
        tasks := tasks[taskIndex := tasks[taskIndex].(completed := !tasks[taskIndex].completed)];
        stored := Some(tasks);
      }
    }

    /** `openEditModal`: for a known id, records it, opens the dialog and
        returns the values it preloads; an unknown id does nothing. */
    method OpenEditModal(taskId: int) returns (preload: Option<Fields>)
      modifies this`currentEditTaskId, this`modalOpen
      ensures var i := FindIndex(tasks, taskId);
        if i >= 0 then
          && currentEditTaskId == Some(taskId) && modalOpen
          && preload == Some(Fields(tasks[i].text, tasks[i].dueDate, tasks[i].priority, tasks[i].category))
        else
          currentEditTaskId == old(currentEditTaskId) && modalOpen == old(modalOpen) && preload == None
    {
      var taskIndex := FindIndex(tasks, taskId);
      preload := None;
      if taskIndex != -1 {
        var task := tasks[taskIndex];
        preload := Some(Fields(task.text, task.dueDate, task.priority, task.category));
        currentEditTaskId := Some(taskId);
        modalOpen := true;
      }
    }

    /** The close button and a click outside the dialog: the dialog closes and
        nothing is saved; the recorded edit id stays. */
    method CloseModal()
      modifies this`modalOpen
      ensures !modalOpen
    {
      modalOpen := false;
    }

    /** `saveEditTask` with the dialog's values at the time of the click. When
        the edit applies, the task is rewritten, saved and the dialog closes;
        otherwise nothing changes and the dialog stays as it was. */
    method SaveEditTask(entered: Fields)
      modifies this`tasks, this`stored, this`modalOpen
      ensures EditApplies(old(tasks), currentEditTaskId, entered) ==>
        && tasks == Edited(old(tasks), currentEditTaskId.value, entered)
        && Saved() && !modalOpen
      ensures !EditApplies(old(tasks), currentEditTaskId, entered) ==>
        tasks == old(tasks) && stored == old(stored) && modalOpen == old(modalOpen)
      ensures old(WellFormed(tasks)) ==> WellFormed(tasks)
    {
      if currentEditTaskId.None? || currentEditTaskId.value == 0 {
        return;
      }
      var editId := currentEditTaskId.value;
      if WellFormed(tasks) {
        EditPreservesWellFormed(tasks, editId, entered);
      }
      var taskIndex := FindIndex(tasks, editId);
      if taskIndex != -1 {
        var taskText := Trim(entered.text);
        if taskText == [] {
          return;
        }
        tasks := tasks[taskIndex := tasks[taskIndex].(
          text := taskText, dueDate := entered.dueDate,
          priority := entered.priority, category := entered.category)];
        stored := Some(tasks);
        modalOpen := false;
      }
    }

    /** `deleteTask`, with its eventual effect: for a known id every task with
        that id is removed and the list saved; an unknown id does nothing. */
    method DeleteTask(taskId: int)
      modifies this`tasks, this`stored
      ensures tasks == Deleted(old(tasks), taskId)
      ensures stored == if FindIndex(old(tasks), taskId) >= 0 then Some(tasks) else old(stored)
      ensures old(Saved()) ==> Saved()
      ensures old(WellFormed(tasks)) ==> WellFormed(tasks)
    {
      if WellFormed(tasks) {
        DeletePreservesWellFormed(tasks, taskId);
      }
      var taskIndex := FindIndex(tasks, taskId);
      if taskIndex != -1 {
        tasks := Deleted(tasks, taskId);
        stored := Some(tasks);
      } else {
        DeleteAbsent(tasks, taskId);
      }
    }

    /** `updateTaskOrder`, given the `data-id`s of the list items in page order:
        the list becomes the task found for each id, in that order, and is saved. */
    method UpdateTaskOrder(domIds: seq<int>)
      modifies this`tasks, this`stored
      ensures tasks == Reordered(old(tasks), domIds)
      ensures Saved()
      ensures old(WellFormed(tasks)) && Distinct(domIds) ==> WellFormed(tasks)
    {
      if WellFormed(tasks) && Distinct(domIds) {
        ReorderPreservesWellFormed(tasks, domIds);
      }
      var newOrder: seq<Task> := [];
      var i := 0;
      while i < |domIds|
        invariant 0 <= i <= |domIds|
        invariant newOrder == Reordered(tasks, domIds[..i])
      {
        var taskIndex := FindIndex(tasks, domIds[i]);
        if taskIndex >= 0 {
          newOrder := newOrder + [tasks[taskIndex]];
        }
        assert domIds[..i + 1][..i] == domIds[..i];
        i := i + 1;
      }
      assert domIds[..|domIds|] == domIds;
      tasks := newOrder;
      stored := Some(tasks);
    }

    /** A filter button: the filter that the next rendering applies. */
    method SelectFilter(mode: FilterMode)
      modifies this`currentFilter
      ensures currentFilter == mode
    {
      currentFilter := mode;
    }

    /** The list `renderAllTasks` draws for the current filter and search box. */
    function Rendered(search: string): seq<Task>
      reads this
    {
      Project(tasks, currentFilter, search)
    }

    /** The counters `updateStats` writes. */
    function Counters(): Stats
      reads this
    {
      ComputeStats(tasks)
    }

    /** Whether `checkEmptyState` shows the empty-state message. */
    function EmptyState(search: string): bool
      reads this
    {
      EmptyStateShown(tasks, currentFilter, search)
    }
  }
}
