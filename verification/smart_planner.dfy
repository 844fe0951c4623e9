/**
 * The study-planner application: a list of tasks and the text of the task
 * being typed. A task is added from the draft, toggled done/undone, or
 * deleted, each by id.
 */
module SmartPlanner {
  import opened JsText

  datatype Task = Task(id: string, title: string, completed: bool)

  /** The task list and the input box's current text. */
  datatype Planner = Planner(tasks: seq<Task>, draft: string)

  /** The tasks the planner opens with. */
  const InitialTasks := [
    Task("1", "Review Probability & Statistics", false),
    Task("2", "Read Chapter 3", true)
  ]

  const Initial := Planner(InitialTasks, "")

  predicate HasTask(tasks: seq<Task>, id: string) {
    exists i :: 0 <= i < |tasks| && tasks[i].id == id
  }

  /** How many tasks carry `id`. */
  function IdCount(tasks: seq<Task>, id: string): nat {
    if tasks == [] then 0
    else (if tasks[0].id == id then 1 else 0) + IdCount(tasks[1..], id)
  }

  /**
   * `handleAddTask`: a draft that is empty after trimming changes nothing;
   * otherwise a new open task with the trimmed draft as title and `newId` as
   * id (the source's `Date.now()` string) is appended and the draft cleared.
   */
  function AddTask(p: Planner, newId: string): (r: Planner)
    ensures AllSpace(p.draft) ==> r == p
    ensures !AllSpace(p.draft) ==>
      && r.draft == ""
      && |r.tasks| == |p.tasks| + 1
      && r.tasks[..|p.tasks|] == p.tasks
      && var t := r.tasks[|p.tasks|];
         && t.id == newId && !t.completed
         && t.title != "" && !IsSpace(t.title[0]) && !IsSpace(t.title[|t.title| - 1])
         && exists i :: OccursAt(p.draft, i, t.title) && AllSpace(p.draft[..i]) && AllSpace(p.draft[i + |t.title|..])
  {
    var title := Trim(p.draft);
    if title == "" then p
    else
      var r := Planner(p.tasks + [Task(newId, title, false)], "");
      assert r.tasks[..|p.tasks|] == p.tasks;
      assert r.tasks[|p.tasks|].title == title;
      r
  }

  /** `toggleTask`: flips the completion of every task with `id`; nothing else changes. */
  function ToggleTask(tasks: seq<Task>, id: string): (r: seq<Task>)
    ensures |r| == |tasks|
    ensures forall i :: 0 <= i < |r| ==>
      && r[i].id == tasks[i].id
      && r[i].title == tasks[i].title
      && (r[i].completed <==> (tasks[i].completed != (tasks[i].id == id)))
  {
    if tasks == [] then []
    else
      var t := tasks[0];
      var t' := if t.id == id then t.(completed := !t.completed) else t;
      [t'] + ToggleTask(tasks[1..], id)
  }

  /** `deleteTask`: keeps, in order, exactly the tasks whose id is not `id`. */
  function DeleteTask(tasks: seq<Task>, id: string): (r: seq<Task>)
    ensures forall t :: t in r <==> t in tasks && t.id != id
    ensures !HasTask(r, id)
    ensures |r| == |tasks| - IdCount(tasks, id)
  {
    if tasks == [] then []
    else
      var rest := DeleteTask(tasks[1..], id);
      assert forall t :: t in tasks <==> t == tasks[0] || t in tasks[1..];
      if tasks[0].id == id then rest else [tasks[0]] + rest
  }
}
