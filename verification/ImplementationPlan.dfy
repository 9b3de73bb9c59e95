/** Subtasks of an implementation plan, as the wave engine sees them. */
module ImplementationPlan {

  type Id = string
  type Path = string

  datatype Status = Pending | InProgress | Completed | Blocked | Failed

  /** The value of a subtask: what the scheduler reads. `files` is the normalised union of the files the
      subtask creates and modifies; the empty set means "footprint unknown". */
  datatype Task = Task(id: Id, dependsOn: seq<Id>, files: set<Path>, status: Status)

  /** A subtask object. Everything but its status is fixed while a phase runs. */
  class Subtask {
    const id: Id
    const dependsOn: seq<Id>
    const files: set<Path>
    var status: Status

    constructor (id: Id, dependsOn: seq<Id>, files: set<Path>, status: Status)
      ensures View() == Task(id, dependsOn, files, status)
    {
      this.id, this.dependsOn, this.files, this.status := id, dependsOn, files, status;
    }

    function View(): (t: Task)
      reads this
      ensures t.id == id
    {
      Task(id, dependsOn, files, status)
    }

    method Complete()
      modifies this`status
      ensures View() == old(View()).(status := Completed)
    {
      status := Completed;
    }

    method Fail()
      modifies this`status
      ensures View() == old(View()).(status := Failed)
    {
      status := Failed;
    }
  }

  function Views(subtasks: seq<Subtask>): (tasks: seq<Task>)
    reads subtasks
    ensures |tasks| == |subtasks|
    ensures forall i :: 0 <= i < |subtasks| ==> tasks[i] == subtasks[i].View()
  {
    seq(|subtasks|, i requires 0 <= i < |subtasks| reads subtasks => subtasks[i].View())
  }

  ghost predicate UniqueIds(tasks: seq<Task>) {
    forall i, j :: 0 <= i < j < |tasks| ==> tasks[i].id != tasks[j].id
  }
}
