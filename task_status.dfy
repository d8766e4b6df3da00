/** scripts/task_status.py: the read-only status report and the dependency
    validation that the documentation generator writes back into the
    registry. Markdown generation and file I/O are outside this model. */
module TaskStatus {
  import opened Wrappers
  import opened TaskData

  /** The dictionary `get_current_status` returns. */
  datatype StatusReport = StatusReport(
    activeTask: Task,
    nextTask: Option<Task>,
    progress: Progress,
    phase: string)

  /** `get_current_status`: the active task record (a KeyError when
      `activeTask` is null or names no task), the next task record when
      `nextTask` is truthy (a KeyError when it names no task), the progress
      block and the phase. */
  function GetCurrentStatus(data: ProjectData): (r: Result<StatusReport>)
    reads data
    ensures r.Ok? <==> && data.activeTask.Some? && data.activeTask.value in data.tasks
                       && (data.nextTask.Some? && data.nextTask.value != "" ==> data.nextTask.value in data.tasks)
    ensures r.Err? ==> r.error == KeyError
    ensures r.Ok? ==> && r.value.activeTask == data.tasks[data.activeTask.value]
                      && r.value.progress == data.overallProgress
                      && r.value.phase == data.currentPhase
                      && (r.value.nextTask.Some? <==> data.nextTask.Some? && data.nextTask.value != "")
                      && (r.value.nextTask.Some? ==> r.value.nextTask.value == data.tasks[data.nextTask.value])
  {
    if data.activeTask.None? || data.activeTask.value !in data.tasks then Err(KeyError)
    else
      var active := data.tasks[data.activeTask.value];
      match data.nextTask
      case None => Ok(StatusReport(active, None, data.overallProgress, data.currentPhase))
      case Some(id) =>
        if id == "" then Ok(StatusReport(active, None, data.overallProgress, data.currentPhase))
        else if id in data.tasks then Ok(StatusReport(active, Some(data.tasks[id]), data.overallProgress, data.currentPhase))
        else Err(KeyError)
  }

  /** `validate_dependencies`: one issue per (CURRENT or READY task,
      dependency not COMPLETED) pair, in registry order. */
  method ValidateDependencies(data: ProjectData) returns (issues: seq<Issue>)
    requires data.Valid()
    ensures issues == DependencyIssues(data.tasks, data.order)
  {
    issues := [];
    var i := 0;
    while i < |data.order|
      invariant 0 <= i <= |data.order|
      invariant issues == DependencyIssues(data.tasks, data.order[..i])
    {
      var k := data.order[i];
      assert AllBut(data.order[..i + 1]) == data.order[..i];
      if data.tasks[k].status == CURRENT || data.tasks[k].status == READY {
        var deps := data.tasks[k].dependencies;
        var j := 0;
        while j < |deps|
          invariant 0 <= j <= |deps|
          invariant issues == DependencyIssues(data.tasks, data.order[..i]) + DepIssues(data.tasks, k, deps[..j])
        {
          assert AllBut(deps[..j + 1]) == deps[..j];
          if data.tasks[deps[j]].status != COMPLETED {
            issues := issues + [UnsatisfiedDependency(k, deps[j])];
          }
          j := j + 1;
        }
        assert deps[..j] == deps;
      }
      i := i + 1;
    }
    assert data.order[..i] == data.order;
  }

  /** `update_validation`: replaces `validation.issues` with the result of
      `validate_dependencies` and changes nothing else. */
  method UpdateValidation(data: ProjectData)
    requires data.Valid()
    modifies data
    ensures data.Valid()
    ensures data.validationIssues == DependencyIssues(data.tasks, data.order)
    ensures data.tasks == old(data.tasks) && data.order == old(data.order)
    ensures data.activeTask == old(data.activeTask) && data.nextTask == old(data.nextTask)
    ensures data.overallProgress == old(data.overallProgress) && data.currentPhase == old(data.currentPhase)
  {
    var issues := ValidateDependencies(data);
    data.validationIssues := issues;
  }

  /** After `update_validation` the stored issue list is empty exactly when
      dependency readiness holds, and every stored issue names a CURRENT or READY
      task and one of its dependencies that is not COMPLETED. */
  lemma StoredIssuesMeaning(tasks: map<TaskId, Task>, order: seq<TaskId>)
    requires WellFormed(tasks, order)
    ensures DependencyIssues(tasks, order) == [] <==> ReadyOrCurrentSatisfied(tasks)
    ensures forall i :: i in DependencyIssues(tasks, order) ==>
              && i.UnsatisfiedDependency? && i.task in tasks
              && tasks[i.task].status in {CURRENT, READY}
              && i.dep in tasks[i.task].dependencies && tasks[i.dep].status != COMPLETED
  {
    DependencyIssuesEmpty(tasks, order);
    forall i | i in DependencyIssues(tasks, order)
      ensures i.UnsatisfiedDependency? && i.task in tasks && tasks[i.task].status in {CURRENT, READY}
              && i.dep in tasks[i.task].dependencies && tasks[i.dep].status != COMPLETED
    {
      DependencyIssuesMember(tasks, order, i);
    }
  }
}
