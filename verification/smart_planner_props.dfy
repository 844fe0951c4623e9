/** Properties of the planner's operations and how they undo one another. */
module SmartPlannerProps {
  import opened JsText
  import opened SmartPlanner

  /** Ticking a checkbox twice restores the list. */
  lemma {:induction false} ToggleTwice(tasks: seq<Task>, id: string)
    ensures ToggleTask(ToggleTask(tasks, id), id) == tasks
  {
    if tasks != [] {
      ToggleTwice(tasks[1..], id);
      assert ToggleTask(tasks, id)[1..] == ToggleTask(tasks[1..], id);
    }
  }

  /** Toggling an id no task carries changes nothing. */
  lemma ToggleAbsent(tasks: seq<Task>, id: string)
    requires !HasTask(tasks, id)
    ensures ToggleTask(tasks, id) == tasks
  {
    var r := ToggleTask(tasks, id);
    forall i | 0 <= i < |r|
      ensures r[i] == tasks[i]
    {
    }
  }

  /** Toggles of two ids commute. */
  lemma ToggleCommutes(tasks: seq<Task>, a: string, b: string)
    ensures ToggleTask(ToggleTask(tasks, a), b) == ToggleTask(ToggleTask(tasks, b), a)
  {
    var x := ToggleTask(ToggleTask(tasks, a), b);
    var y := ToggleTask(ToggleTask(tasks, b), a);
    forall i | 0 <= i < |x|
      ensures x[i] == y[i]
    {
    }
  }

  /** Deleting an id no task carries changes nothing. */
  lemma {:induction false} DeleteAbsent(tasks: seq<Task>, id: string)
    requires !HasTask(tasks, id)
    ensures DeleteTask(tasks, id) == tasks
  {
    if tasks != [] {
      assert tasks[0].id != id;
      assert !HasTask(tasks[1..], id) by {
        forall i | 0 <= i < |tasks[1..]|
          ensures tasks[1..][i].id != id
        {
          assert tasks[1..][i] == tasks[i + 1];
        }
      }
      DeleteAbsent(tasks[1..], id);
      assert tasks == [tasks[0]] + tasks[1..];
    }
  }

  /** A second delete of the same id has nothing left to remove. */
  lemma DeleteIdempotent(tasks: seq<Task>, id: string)
    ensures DeleteTask(DeleteTask(tasks, id), id) == DeleteTask(tasks, id)
  {
    DeleteAbsent(DeleteTask(tasks, id), id);
  }

  /** Deleting works piecewise, so the tasks that stay keep their order. */
  lemma {:induction false} DeleteDistributes(a: seq<Task>, b: seq<Task>, id: string)
    ensures DeleteTask(a + b, id) == DeleteTask(a, id) + DeleteTask(b, id)
  {
    if a != [] {
      assert (a + b)[1..] == a[1..] + b;
      DeleteDistributes(a[1..], b, id);
    } else {
      assert a + b == b;
    }
  }

  /** Deleting a task after toggling it is the same as deleting it. */
  lemma {:induction false} DeleteAfterToggle(tasks: seq<Task>, id: string)
    ensures DeleteTask(ToggleTask(tasks, id), id) == DeleteTask(tasks, id)
  {
    if tasks != [] {
      assert ToggleTask(tasks, id)[1..] == ToggleTask(tasks[1..], id);
      DeleteAfterToggle(tasks[1..], id);
    }
  }

  /** Deleting a freshly added task, whose id was unused, restores the old list. */
  lemma DeleteUndoesAdd(p: Planner, newId: string)
    requires !HasTask(p.tasks, newId)
    ensures DeleteTask(AddTask(p, newId).tasks, newId) == p.tasks
  {
    var r := AddTask(p, newId);
    DeleteAbsent(p.tasks, newId);
    if !AllSpace(p.draft) {
      assert r.tasks == p.tasks + [r.tasks[|p.tasks|]];
      DeleteDistributes(p.tasks, [r.tasks[|p.tasks|]], newId);
    }
  }

  /** Adding a task typed with surrounding blanks stores the trimmed title and empties the box. */
  lemma AddTrimsDraft()
    ensures AddTask(Planner(InitialTasks, " Read Chapter 4\n"), "3")
      == Planner(InitialTasks + [Task("3", "Read Chapter 4", false)], "")
  {
    var d := " Read Chapter 4\n";
    var title := "Read Chapter 4";
    assert d == " " + title + "\n";
    TrimPadded(" ", title, "\n");
    assert Trim(d) == title;
  }

  /** A draft of blanks adds nothing. */
  lemma AddBlankIgnored()
    ensures AddTask(Planner(InitialTasks, " \t "), "3") == Planner(InitialTasks, " \t ")
  {
  }
}
