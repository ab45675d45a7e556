/**
 * The study-task list page: add a trimmed task at the front, toggle or delete
 * tasks by id, and the completion count and percentage shown above the list.
 * Loading from and saving to browser storage is outside the model; the
 * page's state is the `TaskPage` class and the list transforms are functions.
 */
module TaskList {
  import opened Seqs
  import opened Strings
  import Rounding

  datatype Category = Study | Exercise | Review | Project

  datatype Task = Task(id: string, title: string, completed: bool, createdAt: string, category: Category)

  /** `addTask`'s new list: unchanged for a blank input, otherwise the new task in front; `id` and `createdAt` stand for the clock. */
  function Added(tasks: seq<Task>, input: string, category: Category, id: string, createdAt: string): (r: seq<Task>)
    ensures Trim(input) != "" ==> |r| == |tasks| + 1 && r[1..] == tasks
    ensures Trim(input) != "" ==> r[0].title == Trim(input) && !r[0].completed && r[0].category == category
  {
    if Trim(input) == "" then tasks
    else [Task(id, Trim(input), false, createdAt, category)] + tasks
  }

  /** A whitespace-only (or empty) input is exactly the case that adds nothing. */
  lemma AddBlankIsNoOp(tasks: seq<Task>, input: string, category: Category, id: string, createdAt: string)
    ensures (forall k :: 0 <= k < |input| ==> IsWhitespace(input[k])) <==> Added(tasks, input, category, id, createdAt) == tasks
  {
    TrimEmpty(input);
    if Trim(input) != "" {
      assert |Added(tasks, input, category, id, createdAt)| == |tasks| + 1;
    }
  }

  function Flip(id: string, t: Task): Task
  {
    if t.id == id then t.(completed := !t.completed) else t
  }

  /** `toggleTask`'s new list: the tasks with that id have `completed` flipped, all else kept. */
  function Toggled(tasks: seq<Task>, id: string): (r: seq<Task>)
    ensures |r| == |tasks|
    ensures forall i :: 0 <= i < |tasks| ==>
      r[i].id == tasks[i].id && r[i].title == tasks[i].title && r[i].category == tasks[i].category
      && r[i].createdAt == tasks[i].createdAt
      && r[i].completed == (if tasks[i].id == id then !tasks[i].completed else tasks[i].completed)
  {
    seq(|tasks|, i requires 0 <= i < |tasks| => Flip(id, tasks[i]))
  }

  /** Toggling the same id twice restores the list. */
  lemma ToggleTwice(tasks: seq<Task>, id: string)
    ensures Toggled(Toggled(tasks, id), id) == tasks
  {
    var r := Toggled(Toggled(tasks, id), id);
    forall i | 0 <= i < |tasks| ensures r[i] == tasks[i] {
    }
  }

  /** Toggling an id no task has changes nothing. */
  lemma ToggleAbsent(tasks: seq<Task>, id: string)
    requires forall i :: 0 <= i < |tasks| ==> tasks[i].id != id
    ensures Toggled(tasks, id) == tasks
  {
    var r := Toggled(tasks, id);
    forall i | 0 <= i < |tasks| ensures r[i] == tasks[i] {
    }
  }

  function IdIsNot(id: string): Task -> bool
  {
    (t: Task) => t.id != id
  }

  /** `deleteTask`'s new list: `tasks.filter(t => t.id !== id)`. */
  function Deleted(tasks: seq<Task>, id: string): (r: seq<Task>)
    ensures |r| <= |tasks|
    ensures forall t :: t in r <==> t in tasks && t.id != id
    ensures forall t :: multiset(r)[t] == if t.id != id then multiset(tasks)[t] else 0
  {
    var r := Filter(tasks, IdIsNot(id));
    assert forall t :: multiset(r)[t] == if t.id != id then multiset(tasks)[t] else 0 by {
      forall t ensures multiset(r)[t] == if t.id != id then multiset(tasks)[t] else 0 {
        FilterMultiset(tasks, IdIsNot(id), t);
      }
    }
    r
  }

  /** Deleting an id no task has changes nothing; deleting removes every task with that id. */
  lemma DeleteAbsent(tasks: seq<Task>, id: string)
    ensures (forall i :: 0 <= i < |tasks| ==> tasks[i].id != id) ==> Deleted(tasks, id) == tasks
    ensures (exists i :: 0 <= i < |tasks| && tasks[i].id == id) ==> |Deleted(tasks, id)| < |tasks|
  {
    if forall i :: 0 <= i < |tasks| ==> tasks[i].id != id {
      FilterAll(tasks, IdIsNot(id));
    } else {
      var i :| 0 <= i < |tasks| && tasks[i].id == id;
      DeleteShrinks(tasks, id, i);
    }
  }

  lemma {:induction false} DeleteShrinks(tasks: seq<Task>, id: string, i: nat)
    requires i < |tasks| && tasks[i].id == id
    ensures |Deleted(tasks, id)| < |tasks|
  {
    if i > 0 {
      DeleteShrinks(tasks[1..], id, i - 1);
    }
  }

  function IsCompleted(): Task -> bool
  {
    (t: Task) => t.completed
  }

  /** `completedCount`. */
  function CompletedCount(tasks: seq<Task>): (n: nat)
    ensures n <= |tasks|
  {
    |Filter(tasks, IsCompleted())|
  }

  /** `progressPercent`: 0 for an empty list, otherwise the rounded completion percentage. */
  function ProgressPercent(tasks: seq<Task>): (p: nat)
    ensures p <= 100
    ensures |tasks| == 0 ==> p == 0
  {
    if |tasks| == 0 then 0
    else
      Rounding.RoundPercentBounds(CompletedCount(tasks), |tasks|);
      Rounding.RoundPercent(CompletedCount(tasks), |tasks|)
  }

  /** A fully completed non-empty list shows 100, a list with nothing completed shows 0. */
  lemma PercentExtremes(tasks: seq<Task>)
    ensures |tasks| > 0 && (forall i :: 0 <= i < |tasks| ==> tasks[i].completed) ==> ProgressPercent(tasks) == 100
    ensures (forall i :: 0 <= i < |tasks| ==> !tasks[i].completed) ==> ProgressPercent(tasks) == 0
  {
    if forall i :: 0 <= i < |tasks| ==> tasks[i].completed {
      FilterAll(tasks, IsCompleted());
    }
    if forall i :: 0 <= i < |tasks| ==> !tasks[i].completed {
      FilterNone(tasks, IsCompleted());
    }
    if |tasks| > 0 {
      Rounding.RoundPercentBounds(CompletedCount(tasks), |tasks|);
    }
  }

  class TaskPage {
    var tasks: seq<Task>
    var newTask: string
    var selectedCategory: Category

    /** Mounting: the list read from storage (empty when nothing is stored), an empty input, category "study". */
    constructor(loaded: seq<Task>)
      ensures tasks == loaded && newTask == "" && selectedCategory == Study
    {
      tasks := loaded;
      newTask := "";
      selectedCategory := Study;
    }

    method SetNewTask(input: string)
      modifies this
      ensures newTask == input && tasks == old(tasks) && selectedCategory == old(selectedCategory)
    {
      newTask := input;
    }

    method SelectCategory(c: Category)
      modifies this
      ensures selectedCategory == c && tasks == old(tasks) && newTask == old(newTask)
    {
      selectedCategory := c;
    }

    /** The add button or Enter; the input is cleared only when a task was added. */
    method AddTask(id: string, createdAt: string)
      modifies this
      ensures tasks == Added(old(tasks), old(newTask), old(selectedCategory), id, createdAt)
      ensures newTask == if Trim(old(newTask)) == "" then old(newTask) else ""
      ensures selectedCategory == old(selectedCategory)
    {
      if Trim(newTask) == "" {
        return;
      }
      var task := Task(id, Trim(newTask), false, createdAt, selectedCategory);
      tasks := [task] + tasks;
      newTask := "";
    }

    method ToggleTask(id: string)
      modifies this
      ensures tasks == Toggled(old(tasks), id)
      ensures newTask == old(newTask) && selectedCategory == old(selectedCategory)
    {
      tasks := Toggled(tasks, id);
    }

    method DeleteTask(id: string)
      modifies this
      ensures tasks == Deleted(old(tasks), id)
      ensures newTask == old(newTask) && selectedCategory == old(selectedCategory)
    {
      tasks := Deleted(tasks, id);
    }
  }
}
