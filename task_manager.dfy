/** scripts/task_manager.py: the TaskManager class that moves tasks through
    PENDING -> READY -> CURRENT -> COMPLETED, keeps `currentState` up to
    date, and validates the registry. Loading and saving the JSON file and
    the timestamps it writes are outside this model. */
module TaskManager {
  import opened Wrappers
  import opened TaskData

  /** The task record after `complete_task` marks it: COMPLETED, and the
      notes stored only when they are truthy (present and non-empty). */
  function Finish(tasks: map<TaskId, Task>, id: TaskId, notes: Option<string>): (r: map<TaskId, Task>)
    requires id in tasks
    ensures r.Keys == tasks.Keys
    ensures r[id].status == COMPLETED
    ensures r[id].completionNotes == if notes.Some? && notes.value != "" then notes else tasks[id].completionNotes
    ensures r[id] == tasks[id].(status := r[id].status, completionNotes := r[id].completionNotes)
    ensures forall k :: k in tasks && k != id ==> r[k] == tasks[k]
  {
    var notes' := if notes.Some? && notes.value != "" then notes else tasks[id].completionNotes;
    tasks[id := tasks[id].(status := COMPLETED, completionNotes := notes')]
  }

  /** Whether `_update_dependent_tasks(id)` promotes task `k`. */
  ghost predicate Promoted(tasks: map<TaskId, Task>, id: TaskId, k: TaskId)
    requires k in tasks
  {
    id in tasks[k].dependencies && DepsCompleted(tasks, k) && tasks[k].status == PENDING
  }

  /** The tasks after `_update_dependent_tasks(id)`. */
  ghost function Cascade(tasks: map<TaskId, Task>, id: TaskId): map<TaskId, Task>
  {
    map k | k in tasks :: if Promoted(tasks, id, k) then tasks[k].(status := READY) else tasks[k]
  }

  /** The list `validate_state` returns. */
  function ValidationIssues(tasks: map<TaskId, Task>, order: seq<TaskId>): seq<Issue>
    requires Listed(tasks, order) && DepsExist(tasks)
  {
    DependencyIssues(tasks, order) + CurrentCountIssues(tasks, CurrentIds(tasks, order))
  }

  class TaskManager {
    const data: ProjectData

    ghost predicate Valid()
      reads this, data
    {
      data.Valid()
    }

    constructor (data: ProjectData)
      requires data.Valid()
      ensures Valid() && this.data == data
    {
      this.data := data;
    }

    /** `get_current_task`: the record of the active task; a missing or
        null `activeTask` is a KeyError. */
    function GetCurrentTask(): (r: Result<Task>)
      reads this, data
      ensures r.Ok? <==> data.activeTask.Some? && data.activeTask.value in data.tasks
      ensures r.Ok? ==> r.value == data.tasks[data.activeTask.value]
      ensures r.Err? ==> r.error == KeyError
    {
      if data.activeTask.Some? && data.activeTask.value in data.tasks
      then Ok(data.tasks[data.activeTask.value])
      else Err(KeyError)
    }

    /** `get_next_task`: None when `nextTask` is null or empty, else the
        record, a KeyError when it names no task. */
    function GetNextTask(): (r: Result<Option<Task>>)
      reads this, data
      ensures (data.nextTask.None? || data.nextTask.value == "") ==> r == Ok(None)
      ensures data.nextTask.Some? && data.nextTask.value != "" ==>
                (if data.nextTask.value in data.tasks then r == Ok(Some(data.tasks[data.nextTask.value]))
                 else r == Err(KeyError))
    {
      match data.nextTask
      case None => Ok(None)
      case Some(id) =>
        if id == "" then Ok(None)
        else if id in data.tasks then Ok(Some(data.tasks[id]))
        else Err(KeyError)
    }

    /** `get_ready_tasks`: the READY task records, in registry order. */
    method GetReadyTasks() returns (ready: seq<Task>)
      requires Valid()
      ensures forall t :: t in ready ==> t.status == READY && t in data.tasks.Values
      ensures forall k :: k in data.tasks && data.tasks[k].status == READY ==> data.tasks[k] in ready
      ensures |ready| == CountStatus(data.tasks, data.order, READY)
      ensures ready == WithStatus(data.tasks, data.order, READY)
    {
      ready := [];
      var i := 0;
      while i < |data.order|
        invariant 0 <= i <= |data.order|
        invariant forall t :: t in ready ==> t.status == READY && t in data.tasks.Values
        invariant forall j :: 0 <= j < i && data.tasks[data.order[j]].status == READY
                    ==> data.tasks[data.order[j]] in ready
        invariant |ready| == CountStatus(data.tasks, data.order[..i], READY)
        invariant ready == WithStatus(data.tasks, data.order[..i], READY)
      {
        var k := data.order[i];
        assert AllBut(data.order[..i + 1]) == data.order[..i];
        if data.tasks[k].status == READY {
          ready := ready + [data.tasks[k]];
        }
        i := i + 1;
      }
      assert data.order[..i] == data.order;
    }

    /** `_dependencies_satisfied`: whether every dependency is COMPLETED. */
    method DependenciesSatisfied(id: TaskId) returns (b: bool)
      requires Valid() && id in data.tasks
      ensures b == DepsCompleted(data.tasks, id)
    {
      b := AllCompleted(data.tasks, id);
    }

    /** `start_task`: a task whose dependencies are all COMPLETED becomes
        CURRENT and the active task; otherwise nothing changes. Nothing
        stops a second task from being started while one is CURRENT. */
    method StartTask(id: TaskId) returns (ok: bool)
      requires Valid()
      modifies data
      ensures Valid()
      ensures ok == (id in old(data.tasks) && DepsCompleted(old(data.tasks), id))
      ensures !ok ==> unchanged(data)
      ensures ok ==> data.tasks == old(data.tasks)[id := old(data.tasks)[id].(status := CURRENT)]
      ensures ok ==> data.activeTask == Some(id) && GetCurrentTask() == Ok(data.tasks[id])
      ensures data.order == old(data.order) && data.nextTask == old(data.nextTask)
      ensures data.overallProgress == old(data.overallProgress)
      ensures data.currentPhase == old(data.currentPhase)
      ensures data.validationIssues == old(data.validationIssues)
    {
      if id !in data.tasks {
        return false;
      }
      var satisfied := DependenciesSatisfied(id);
      if !satisfied {
        return false;
      }
      data.tasks := data.tasks[id := data.tasks[id].(status := CURRENT)];
      data.activeTask := Some(id);
      return true;
    }

    /** `_update_dependent_tasks`: every PENDING task that lists `id` and
        whose dependencies are now all COMPLETED becomes READY. */
    method UpdateDependentTasks(id: TaskId)
      requires Valid()
      modifies data
      ensures Valid()
      ensures data.tasks == Cascade(old(data.tasks), id)
      ensures data.order == old(data.order) && data.activeTask == old(data.activeTask)
      ensures data.nextTask == old(data.nextTask) && data.overallProgress == old(data.overallProgress)
      ensures data.currentPhase == old(data.currentPhase)
      ensures data.validationIssues == old(data.validationIssues)
    {
      var tasks := data.tasks;
      var i := 0;
      while i < |data.order|
        invariant 0 <= i <= |data.order|
        invariant unchanged(data)
        invariant CascadedUpTo(old(data.tasks), tasks, id, data.order[..i])
      {
        var k := data.order[i];
        assert data.order[..i + 1] == data.order[..i] + [k];
        assert k !in data.order[..i] by {
          forall j | 0 <= j < i ensures data.order[j] != k {
          }
        }
        CascadeStep(old(data.tasks), tasks, id, data.order[..i], k);
        if id in tasks[k].dependencies {
          var satisfied := AllCompleted(tasks, k);
          if satisfied && tasks[k].status == PENDING {
            tasks := tasks[k := tasks[k].(status := READY)];
          }
        }
        i := i + 1;
      }
      assert data.order[..i] == data.order;
      CascadeDone(old(data.tasks), tasks, id, data.order);
      data.tasks := tasks;
    }

    /** `_update_current_state`: `nextTask` becomes the `id` of the first
        READY task of least priority (or null), and `overallProgress` is
        recounted. The tasks are non-empty here, since `complete_task` found
        one. */
    method UpdateCurrentState()
      requires Valid() && |data.order| > 0
      modifies data
      ensures Valid()
      ensures data.nextTask.None? <==> forall k :: k in data.tasks ==> data.tasks[k].status != READY
      ensures data.nextTask == NextTaskId(data.tasks, data.order)
      ensures data.tasks == old(data.tasks) && data.order == old(data.order)
      ensures data.overallProgress == ProgressOf(data.tasks, data.order)
      ensures data.overallProgress.total == |data.tasks|
      ensures data.activeTask == old(data.activeTask) && data.currentPhase == old(data.currentPhase)
      ensures data.validationIssues == old(data.validationIssues)
    {
      var best := FindNextTask();
      data.nextTask := if best.Some? then Some(data.tasks[best.value].id) else None;
      var completed := CountCompleted();
      OrderSize(data.tasks, data.order);
      var total := |data.order|;
      data.overallProgress := Progress(completed, total, RoundHalfEven(completed * 100, total));
    }

    /** The first loop of `_update_current_state`: the READY task of least
        priority, the first one on ties. */
    method FindNextTask() returns (best: Option<TaskId>)
      requires Valid()
      ensures best == MinReady(data.tasks, data.order)
    {
      best := None;
      var i := 0;
      while i < |data.order|
        invariant 0 <= i <= |data.order|
        invariant best == MinReady(data.tasks, data.order[..i])
      {
        var k := data.order[i];
        assert AllBut(data.order[..i + 1]) == data.order[..i];
        if data.tasks[k].status == READY && (best.None? || data.tasks[k].priority < data.tasks[best.value].priority) {
          best := Some(k);
        }
        i := i + 1;
      }
      assert data.order[..i] == data.order;
    }

    /** The second loop of `_update_current_state`: how many tasks are
        COMPLETED. */
    method CountCompleted() returns (completed: nat)
      requires Valid()
      ensures completed == CountStatus(data.tasks, data.order, COMPLETED)
    {
      completed := 0;
      var i := 0;
      while i < |data.order|
        invariant 0 <= i <= |data.order|
        invariant completed == CountStatus(data.tasks, data.order[..i], COMPLETED)
      {
        assert AllBut(data.order[..i + 1]) == data.order[..i];
        if data.tasks[data.order[i]].status == COMPLETED {
          completed := completed + 1;
        }
        i := i + 1;
      }
      assert data.order[..i] == data.order;
    }

    /** `complete_task`: an unknown id changes nothing; otherwise the task is
        COMPLETED, its dependents are promoted and `currentState` is
        recomputed. The active task is left as it was. */
    method CompleteTask(id: TaskId, notes: Option<string>) returns (ok: bool)
      requires Valid()
      modifies data
      ensures Valid()
      ensures ok == (id in old(data.tasks))
      ensures !ok ==> unchanged(data)
      ensures ok ==> data.tasks == Cascade(Finish(old(data.tasks), id, notes), id)
      ensures data.order == old(data.order) && data.activeTask == old(data.activeTask)
      ensures ok ==> data.nextTask == NextTaskId(data.tasks, data.order)
      ensures ok ==> |data.order| > 0 && data.overallProgress == ProgressOf(data.tasks, data.order)
      ensures data.currentPhase == old(data.currentPhase)
      ensures data.validationIssues == old(data.validationIssues)
    {
      if id !in data.tasks {
        return false;
      }
      var notes' := if notes.Some? && notes.value != "" then notes else data.tasks[id].completionNotes;
      data.tasks := data.tasks[id := data.tasks[id].(status := COMPLETED, completionNotes := notes')];
      UpdateDependentTasks(id);
      UpdateCurrentState();
      return true;
    }

    /** `validate_state`: the dependency issues, then the issue about the
        number of CURRENT tasks. */
    method ValidateState() returns (issues: seq<Issue>)
      requires Valid()
      ensures issues == ValidationIssues(data.tasks, data.order)
      ensures forall ids :: MultipleCurrent(ids) in issues <==>
                var current := CurrentIds(data.tasks, data.order);
                |current| > 1 && |ids| == |current| && forall j :: 0 <= j < |ids| ==> ids[j] == data.tasks[current[j]].id
    {
      issues := CollectDependencyIssues(data.tasks, data.order);
      var current := [];
      var i := 0;
      while i < |data.order|
        invariant 0 <= i <= |data.order|
        invariant current == CurrentIds(data.tasks, data.order[..i])
      {
        assert AllBut(data.order[..i + 1]) == data.order[..i];
        if data.tasks[data.order[i]].status == CURRENT {
          current := current + [data.order[i]];
        }
        i := i + 1;
      }
      assert data.order[..i] == data.order;
      if |current| > 1 {
        issues := issues + [MultipleCurrent(RecordIds(data.tasks, current))];
      } else if |current| == 0 {
        issues := issues + [NoCurrent];
      }
      forall ids {
        MultipleCurrentReported(data.tasks, data.order, ids);
      }
    }
  }

  /** The dependency loop of `validate_state`. */
  method CollectDependencyIssues(tasks: map<TaskId, Task>, order: seq<TaskId>) returns (issues: seq<Issue>)
    requires Listed(tasks, order) && DepsExist(tasks)
    ensures issues == DependencyIssues(tasks, order)
  {
    issues := [];
    var i := 0;
    while i < |order|
      invariant 0 <= i <= |order|
      invariant issues == DependencyIssues(tasks, order[..i])
    {
      var k := order[i];
      assert AllBut(order[..i + 1]) == order[..i];
      if tasks[k].status == CURRENT || tasks[k].status == READY {
        var more := CollectDepIssues(tasks, k);
        issues := issues + more;
      }
      i := i + 1;
    }
    assert order[..i] == order;
  }

  /** The issues for the dependencies of one task. */
  method CollectDepIssues(tasks: map<TaskId, Task>, k: TaskId) returns (issues: seq<Issue>)
    requires k in tasks && DepsExist(tasks)
    ensures issues == DepIssues(tasks, k, tasks[k].dependencies)
  {
    var deps := tasks[k].dependencies;
    issues := [];
    var j := 0;
    while j < |deps|
      invariant 0 <= j <= |deps|
      invariant issues == DepIssues(tasks, k, deps[..j])
    {
      assert AllBut(deps[..j + 1]) == deps[..j];
      if tasks[deps[j]].status != COMPLETED {
        issues := issues + [UnsatisfiedDependency(k, deps[j])];
      }
      j := j + 1;
    }
    assert deps[..j] == deps;
  }

  /** The loop of `_dependencies_satisfied`, over a given state of the
      tasks dictionary. */
  method AllCompleted(tasks: map<TaskId, Task>, id: TaskId) returns (b: bool)
    requires id in tasks && DepsExist(tasks)
    ensures b == DepsCompleted(tasks, id)
  {
    var deps := tasks[id].dependencies;
    var i := 0;
    while i < |deps|
      invariant 0 <= i <= |deps|
      invariant forall j :: 0 <= j < i ==> tasks[deps[j]].status == COMPLETED
    {
      if tasks[deps[i]].status != COMPLETED {
        return false;
      }
      i := i + 1;
    }
    return true;
  }

  /** The tasks part-way through `_update_dependent_tasks(id)`: the tasks
      already visited are promoted as the cascade promotes them, the others
      are as they were. */
  ghost predicate CascadedUpTo(t0: map<TaskId, Task>, t: map<TaskId, Task>, id: TaskId, seen: seq<TaskId>)
  {
    && t.Keys == t0.Keys
    && forall k :: k in t ==> t[k] == if k in seen && Promoted(t0, id, k) then t0[k].(status := READY) else t0[k]
  }

  /** Visiting one more task keeps the partial cascade; the test the loop
      makes on the current tasks agrees with the test on the original ones. */
  lemma CascadeStep(t0: map<TaskId, Task>, t: map<TaskId, Task>, id: TaskId, seen: seq<TaskId>, k: TaskId)
    requires CascadedUpTo(t0, t, id, seen) && k in t0 && k !in seen
    ensures t[k] == t0[k] && DepsCompleted(t, k) == DepsCompleted(t0, k)
    ensures Promoted(t0, id, k) ==> CascadedUpTo(t0, t[k := t[k].(status := READY)], id, seen + [k])
    ensures !Promoted(t0, id, k) ==> CascadedUpTo(t0, t, id, seen + [k])
  {
    assert forall j :: j in t0 ==> (t[j].status == COMPLETED <==> t0[j].status == COMPLETED);
    SameCompletion(t0, t, k);
  }

  /** Once every task is visited the partial cascade is the cascade, and the
      registry keeps its shape. */
  lemma CascadeDone(t0: map<TaskId, Task>, t: map<TaskId, Task>, id: TaskId, order: seq<TaskId>)
    requires CascadedUpTo(t0, t, id, order) && WellFormed(t0, order)
    ensures t == Cascade(t0, id) && WellFormed(t, order)
  {
    assert forall k :: k in t ==> t[k].dependencies == t0[k].dependencies;
  }

  /** Promotions never change which tasks are COMPLETED, so they do not
      change whether a task's dependencies are satisfied. */
  lemma SameCompletion(t0: map<TaskId, Task>, t1: map<TaskId, Task>, k: TaskId)
    requires k in t0 && t0.Keys == t1.Keys && t1[k].dependencies == t0[k].dependencies
    requires forall j :: j in t0 ==> (t1[j].status == COMPLETED <==> t0[j].status == COMPLETED)
    ensures DepsCompleted(t1, k) == DepsCompleted(t0, k)
  {
  }

  /** Completing a task keeps dependency readiness: READY and CURRENT tasks still
      have all their dependencies COMPLETED afterwards. */
  lemma CompletePreservesReadiness(tasks: map<TaskId, Task>, id: TaskId, notes: Option<string>)
    requires id in tasks && DepsExist(tasks) && ReadyOrCurrentSatisfied(tasks)
    ensures ReadyOrCurrentSatisfied(Cascade(Finish(tasks, id, notes), id))
  {
    var f := Finish(tasks, id, notes);
    var c := Cascade(f, id);
    forall k | k in c && c[k].status in {READY, CURRENT}
      ensures DepsCompleted(c, k)
    {
      SameCompletion(f, c, k);
      if !Promoted(f, id, k) {
        assert k != id && tasks[k].status == c[k].status;
        assert DepsCompleted(tasks, k);
      }
    }
  }

  /** Completing a task only moves statuses forward: the task itself becomes
      COMPLETED, some PENDING tasks become READY, and every other record is
      unchanged. In particular no COMPLETED task changes. */
  lemma CompleteOnlyAdvances(tasks: map<TaskId, Task>, id: TaskId, notes: Option<string>)
    requires id in tasks
    ensures var c := Cascade(Finish(tasks, id, notes), id);
      && c.Keys == tasks.Keys
      && c[id].status == COMPLETED
      && forall k :: k in tasks && k != id ==>
           c[k] == tasks[k] || (tasks[k].status == PENDING && c[k] == tasks[k].(status := READY))
  {
    var f := Finish(tasks, id, notes);
    assert !Promoted(f, id, id);
  }

  /** After the cascade no task that depends on the completed one is left
      PENDING with all of its dependencies COMPLETED. */
  lemma CascadeLeavesNoReadyPending(tasks: map<TaskId, Task>, id: TaskId, notes: Option<string>)
    requires id in tasks && DepsExist(tasks)
    ensures var c := Cascade(Finish(tasks, id, notes), id);
      forall k :: k in c && id in c[k].dependencies && c[k].status == PENDING ==> !DepsCompleted(c, k)
  {
    var f := Finish(tasks, id, notes);
    var c := Cascade(f, id);
    forall k | k in c && id in c[k].dependencies && c[k].status == PENDING
      ensures !DepsCompleted(c, k)
    {
      SameCompletion(f, c, k);
    }
  }

  /** The COMPLETED count goes up by one exactly when the task was not
      already COMPLETED. */
  lemma CompleteCountsOne(tasks: map<TaskId, Task>, order: seq<TaskId>, id: TaskId, notes: Option<string>)
    requires WellFormed(tasks, order) && id in tasks
    ensures var c := Cascade(Finish(tasks, id, notes), id);
      CountStatus(c, order, COMPLETED)
        == CountStatus(tasks, order, COMPLETED) + (if tasks[id].status == COMPLETED then 0 else 1)
  {
    var c := Cascade(Finish(tasks, id, notes), id);
    CompleteOnlyAdvances(tasks, id, notes);
    CountOneChange(tasks, c, order, id);
  }

  /** Counting COMPLETED tasks in two states that agree on completion
      everywhere except at `id`. */
  lemma {:induction false} CountOneChange(t0: map<TaskId, Task>, t1: map<TaskId, Task>, order: seq<TaskId>, id: TaskId)
    requires Listed(t0, order) && Listed(t1, order) && Distinct(order)
    requires forall k :: k in order && k != id ==> (t1[k].status == COMPLETED <==> t0[k].status == COMPLETED)
    ensures CountStatus(t1, order, COMPLETED) + (if id in order && t0[id].status == COMPLETED then 1 else 0)
         == CountStatus(t0, order, COMPLETED) + (if id in order && t1[id].status == COMPLETED then 1 else 0)
  {
    if order != [] {
      assert order == AllBut(order) + [Last(order)];
      assert Last(order) !in AllBut(order);
      CountOneChange(t0, t1, AllBut(order), id);
    }
  }

  /** Starting a task that is not already COMPLETED keeps dependency
      readiness. */
  lemma StartPreservesReadiness(tasks: map<TaskId, Task>, id: TaskId)
    requires id in tasks && DepsExist(tasks) && ReadyOrCurrentSatisfied(tasks)
    requires DepsCompleted(tasks, id) && tasks[id].status != COMPLETED
    ensures ReadyOrCurrentSatisfied(tasks[id := tasks[id].(status := CURRENT)])
  {
    var s := tasks[id := tasks[id].(status := CURRENT)];
    forall k | k in s && s[k].status in {READY, CURRENT}
      ensures DepsCompleted(s, k)
    {
      assert DepsCompleted(tasks, k);
    }
  }

  /** `validate_state` reports nothing exactly when dependency readiness holds and
      exactly one task is CURRENT. */
  lemma ValidationEmptyIff(tasks: map<TaskId, Task>, order: seq<TaskId>)
    requires WellFormed(tasks, order)
    ensures ValidationIssues(tasks, order) == []
        <==> && ReadyOrCurrentSatisfied(tasks)
             && exists c :: c in tasks && tasks[c].status == CURRENT
                            && forall k :: k in tasks && tasks[k].status == CURRENT ==> k == c
  {
    DependencyIssuesEmpty(tasks, order);
    SingleCurrent(tasks, order);
    assert ValidationIssues(tasks, order) == []
       <==> DependencyIssues(tasks, order) == [] && |CurrentIds(tasks, order)| == 1;
  }

  /** `validate_state` reports several CURRENT tasks exactly when there are
      several, and then lists the `id` fields of their records in registry
      order. */
  lemma MultipleCurrentReported(tasks: map<TaskId, Task>, order: seq<TaskId>, ids: seq<TaskId>)
    requires WellFormed(tasks, order)
    ensures MultipleCurrent(ids) in ValidationIssues(tasks, order) <==>
              var current := CurrentIds(tasks, order);
              |current| > 1 && |ids| == |current| && forall j :: 0 <= j < |ids| ==> ids[j] == tasks[current[j]].id
  {
    DependencyIssuesMember(tasks, order, MultipleCurrent(ids));
    var current := CurrentIds(tasks, order);
    var named := RecordIds(tasks, current);
    if |ids| == |current| && forall j :: 0 <= j < |ids| ==> ids[j] == tasks[current[j]].id {
      assert ids == named;
    }
  }

  /** CurrentIds has one entry exactly when one task is CURRENT. */
  lemma SingleCurrent(tasks: map<TaskId, Task>, order: seq<TaskId>)
    requires WellFormed(tasks, order)
    ensures |CurrentIds(tasks, order)| == 1
        <==> exists c :: c in tasks && tasks[c].status == CURRENT
                         && forall k :: k in tasks && tasks[k].status == CURRENT ==> k == c
  {
    if |CurrentIds(tasks, order)| == 1 {
      OneCurrentIsUnique(tasks, order);
    } else {
      OtherCountNotUnique(tasks, order);
    }
  }

  /** One entry in CurrentIds: that task is the only CURRENT one. */
  lemma OneCurrentIsUnique(tasks: map<TaskId, Task>, order: seq<TaskId>)
    requires WellFormed(tasks, order) && |CurrentIds(tasks, order)| == 1
    ensures var c := CurrentIds(tasks, order)[0];
      c in tasks && tasks[c].status == CURRENT
      && forall k :: k in tasks && tasks[k].status == CURRENT ==> k == c
  {
    CurrentIdsExact(tasks, order);
    var cur := CurrentIds(tasks, order);
    assert cur[0] in cur;
    forall k | k in tasks && tasks[k].status == CURRENT ensures k == cur[0] {
      assert k in cur;
    }
  }

  /** No entry, or several: no task is the only CURRENT one. */
  lemma OtherCountNotUnique(tasks: map<TaskId, Task>, order: seq<TaskId>)
    requires WellFormed(tasks, order) && |CurrentIds(tasks, order)| != 1
    ensures forall c :: c in tasks && tasks[c].status == CURRENT ==>
      exists k :: k in tasks && tasks[k].status == CURRENT && k != c
  {
    CurrentIdsExact(tasks, order);
    var cur := CurrentIds(tasks, order);
    forall c | c in tasks && tasks[c].status == CURRENT
      ensures exists k :: k in tasks && tasks[k].status == CURRENT && k != c
    {
      assert c in cur;
      assert cur[0] in cur && cur[1] in cur && cur[0] != cur[1];
      var other := if cur[0] == c then cur[1] else cur[0];
      assert other in tasks && tasks[other].status == CURRENT && other != c;
    }
  }

  /** The registry of the chain A -> B -> C, A being worked on. */
  function ChainTasks(): map<TaskId, Task>
  {
    map["A" := Task("A", CURRENT, [], 1, None),
        "B" := Task("B", PENDING, ["A"], 2, None),
        "C" := Task("C", PENDING, ["B"], 3, None)]
  }

  /** The chain once A is COMPLETED and B promoted. */
  function ChainAfterA(): map<TaskId, Task>
  {
    map["A" := Task("A", COMPLETED, [], 1, None),
        "B" := Task("B", READY, ["A"], 2, None),
        "C" := Task("C", PENDING, ["B"], 3, None)]
  }

  /** Completing A in the chain: B becomes READY and the next task, C stays
      PENDING. */
  lemma ChainFirstCompletion()
    ensures Cascade(Finish(ChainTasks(), "A", None), "A") == ChainAfterA()
    ensures NextTaskId(ChainAfterA(), ["A", "B", "C"]) == Some("B")
  {
    var f1 := Finish(ChainTasks(), "A", None);
    assert Promoted(f1, "A", "B");
    assert !Promoted(f1, "A", "C");
    assert AllBut(["A", "B", "C"]) == ["A", "B"] && AllBut(["A", "B"]) == ["A"];
  }

  /** Completing B next: C becomes READY and the next task. */
  lemma ChainSecondCompletion()
    ensures var t2 := Cascade(Finish(ChainAfterA(), "B", None), "B");
      t2["C"].status == READY && NextTaskId(t2, ["A", "B", "C"]) == Some("C")
  {
    var f2 := Finish(ChainAfterA(), "B", None);
    assert Promoted(f2, "B", "C");
    var t2 := Cascade(f2, "B");
    assert t2["A"].status == COMPLETED && t2["B"].status == COMPLETED;
    assert AllBut(["A", "B", "C"]) == ["A", "B"] && AllBut(["A", "B"]) == ["A"];
  }

  /** Starting a second task while another is CURRENT is allowed, and
      `validate_state` then reports both. */
  lemma SecondStartReported()
    ensures var a, b := "A", "B";
      var t := map[a := Task(a, READY, [], 1, None), b := Task(b, READY, [], 2, None)];
      var t2 := t[a := t[a].(status := CURRENT)][b := t[b].(status := CURRENT)];
      && DepsCompleted(t, a) && DepsCompleted(t[a := t[a].(status := CURRENT)], b)
      && ValidationIssues(t2, [a, b]) == [MultipleCurrent([a, b])]
  {
    var a, b := "A", "B";
    var t := map[a := Task(a, READY, [], 1, None), b := Task(b, READY, [], 2, None)];
    var t2 := t[a := t[a].(status := CURRENT)][b := t[b].(status := CURRENT)];
    assert AllBut([a, b]) == [a] && AllBut([a]) == [];
    assert CurrentIds(t2, [a]) == [a];
    assert CurrentIds(t2, [a, b]) == [a, b];
    assert DependencyIssues(t2, [a]) == [];
    assert DependencyIssues(t2, [a, b]) == [];
    assert RecordIds(t2, [a, b]) == [a, b];
  }

  /** Two CURRENT records whose `id` fields differ from their keys are
      reported by their `id` fields. */
  lemma RecordIdsReported()
    ensures var t := map["1" := Task("x", CURRENT, [], 1, None), "2" := Task("y", CURRENT, [], 2, None)];
      ValidationIssues(t, ["1", "2"]) == [MultipleCurrent(["x", "y"])]
  {
    var t := map["1" := Task("x", CURRENT, [], 1, None), "2" := Task("y", CURRENT, [], 2, None)];
    assert AllBut(["1", "2"]) == ["1"] && AllBut(["1"]) == [];
    assert CurrentIds(t, ["1", "2"]) == ["1", "2"];
    assert DependencyIssues(t, ["1", "2"]) == [];
    assert RecordIds(t, ["1", "2"]) == ["x", "y"];
  }
}
