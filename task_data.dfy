/** The task registry shared by scripts/task_manager.py and
    scripts/task_status.py: the `tasks` dictionary (with its key order, which
    Python dictionaries keep), the derived `currentState` block and the
    `validation` block, together with the specification functions both
    scripts are proved against. */
module TaskData {
  import opened Wrappers

  type TaskId = string

  datatype Status = PENDING | READY | CURRENT | COMPLETED

  /** One task record. Timestamps are not modelled. */
  datatype Task = Task(
    id: TaskId,
    status: Status,
    dependencies: seq<TaskId>,
    priority: int,
    completionNotes: Option<string>)

  datatype Progress = Progress(completed: nat, total: nat, percentage: nat)

  /** A problem found by a validation pass. */
  datatype Issue =
    | UnsatisfiedDependency(task: TaskId, dep: TaskId)
    | MultipleCurrent(ids: seq<TaskId>)
    | NoCurrent

  function Last(s: seq<TaskId>): TaskId
    requires s != []
  {
    s[|s| - 1]
  }

  function AllBut(s: seq<TaskId>): seq<TaskId>
    requires s != []
  {
    s[..|s| - 1]
  }

  ghost predicate Distinct(s: seq<TaskId>)
  {
    forall i, j :: 0 <= i < j < |s| ==> s[i] != s[j]
  }

  /** Every key in the order is a task. */
  ghost predicate Listed(tasks: map<TaskId, Task>, order: seq<TaskId>)
  {
    forall k :: k in order ==> k in tasks
  }

  /** Every dependency names a task (the scripts index the dictionary with
      each dependency id and would raise KeyError otherwise). */
  ghost predicate DepsExist(tasks: map<TaskId, Task>)
  {
    forall k, d :: k in tasks && d in tasks[k].dependencies ==> d in tasks
  }

  /** The shape of a loaded registry: `order` lists each key once, and
      dependencies name tasks. A record's `id` field need not equal its key:
      nothing in the scripts checks that. */
  ghost predicate WellFormed(tasks: map<TaskId, Task>, order: seq<TaskId>)
  {
    && Distinct(order)
    && (forall k :: k in tasks <==> k in order)
    && DepsExist(tasks)
  }

  /** All dependencies of `id` are COMPLETED. */
  ghost predicate DepsCompleted(tasks: map<TaskId, Task>, id: TaskId)
    requires id in tasks
  {
    forall d :: d in tasks[id].dependencies ==> d in tasks && tasks[d].status == COMPLETED
  }

  /** Dependency readiness: a READY or CURRENT task has all its
      dependencies COMPLETED. */
  ghost predicate ReadyOrCurrentSatisfied(tasks: map<TaskId, Task>)
  {
    forall k :: k in tasks && tasks[k].status in {READY, CURRENT} ==> DepsCompleted(tasks, k)
  }

  // ---------------------------------------------------------------------
  // Validation

  /** One issue per dependency of `k`, among `deps`, that is not COMPLETED. */
  function DepIssues(tasks: map<TaskId, Task>, k: TaskId, deps: seq<TaskId>): seq<Issue>
    requires forall d :: d in deps ==> d in tasks
  {
    if deps == [] then []
    else
      DepIssues(tasks, k, AllBut(deps))
      + (if tasks[Last(deps)].status != COMPLETED then [UnsatisfiedDependency(k, Last(deps))] else [])
  }

  /** The dependency issues of task `k`: only CURRENT and READY tasks are checked. */
  function TaskIssues(tasks: map<TaskId, Task>, k: TaskId): seq<Issue>
    requires k in tasks && DepsExist(tasks)
  {
    if tasks[k].status == CURRENT || tasks[k].status == READY
    then DepIssues(tasks, k, tasks[k].dependencies)
    else []
  }

  /** The dependency issues of the tasks in `order`, in iteration order. */
  function DependencyIssues(tasks: map<TaskId, Task>, order: seq<TaskId>): seq<Issue>
    requires Listed(tasks, order) && DepsExist(tasks)
  {
    if order == [] then []
    else DependencyIssues(tasks, AllBut(order)) + TaskIssues(tasks, Last(order))
  }

  /** The keys of the CURRENT tasks, in iteration order. */
  function CurrentIds(tasks: map<TaskId, Task>, order: seq<TaskId>): (r: seq<TaskId>)
    requires Listed(tasks, order)
    ensures forall k :: k in r ==> k in tasks && tasks[k].status == CURRENT
  {
    if order == [] then []
    else CurrentIds(tasks, AllBut(order)) + (if tasks[Last(order)].status == CURRENT then [Last(order)] else [])
  }

  /** The `id` fields of the records stored under `keys`, in that order. */
  function RecordIds(tasks: map<TaskId, Task>, keys: seq<TaskId>): (r: seq<TaskId>)
    requires forall k :: k in keys ==> k in tasks
    ensures |r| == |keys| && forall i :: 0 <= i < |keys| ==> r[i] == tasks[keys[i]].id
  {
    if keys == [] then [] else [tasks[keys[0]].id] + RecordIds(tasks, keys[1..])
  }

  /** The issue about the number of CURRENT tasks, if any; several are
      reported by the `id` fields of their records. */
  function CurrentCountIssues(tasks: map<TaskId, Task>, current: seq<TaskId>): seq<Issue>
    requires forall k :: k in current ==> k in tasks
  {
    if |current| > 1 then [MultipleCurrent(RecordIds(tasks, current))]
    else if |current| == 0 then [NoCurrent]
    else []
  }

  lemma {:induction false} DepIssuesEmpty(tasks: map<TaskId, Task>, k: TaskId, deps: seq<TaskId>)
    requires forall d :: d in deps ==> d in tasks
    ensures DepIssues(tasks, k, deps) == [] <==> forall d :: d in deps ==> tasks[d].status == COMPLETED
  {
    if deps != [] {
      DepIssuesEmpty(tasks, k, AllBut(deps));
      assert deps == AllBut(deps) + [Last(deps)];
    }
  }

  lemma {:induction false} DepIssuesMember(tasks: map<TaskId, Task>, k: TaskId, deps: seq<TaskId>, i: Issue)
    requires forall d :: d in deps ==> d in tasks
    ensures i in DepIssues(tasks, k, deps)
        <==> i.UnsatisfiedDependency? && i.task == k && i.dep in deps && tasks[i.dep].status != COMPLETED
  {
    if deps != [] {
      DepIssuesMember(tasks, k, AllBut(deps), i);
      assert deps == AllBut(deps) + [Last(deps)];
    }
  }

  /** The dependency issues are exactly the (CURRENT or READY task,
      non-COMPLETED dependency) pairs. */
  lemma {:induction false} DependencyIssuesMember(tasks: map<TaskId, Task>, order: seq<TaskId>, i: Issue)
    requires Listed(tasks, order) && DepsExist(tasks)
    ensures i in DependencyIssues(tasks, order)
        <==> && i.UnsatisfiedDependency? && i.task in order
             && tasks[i.task].status in {CURRENT, READY}
             && i.dep in tasks[i.task].dependencies && tasks[i.dep].status != COMPLETED
  {
    if order != [] {
      DependencyIssuesMember(tasks, AllBut(order), i);
      assert order == AllBut(order) + [Last(order)];
      var k := Last(order);
      if tasks[k].status == CURRENT || tasks[k].status == READY {
        DepIssuesMember(tasks, k, tasks[k].dependencies, i);
      }
    }
  }

  /** No dependency issue exactly when every READY or CURRENT task listed has
      all its dependencies COMPLETED. */
  lemma {:induction false} DependencyIssuesEmpty(tasks: map<TaskId, Task>, order: seq<TaskId>)
    requires Listed(tasks, order) && DepsExist(tasks)
    ensures DependencyIssues(tasks, order) == []
        <==> forall k :: k in order && tasks[k].status in {CURRENT, READY} ==> DepsCompleted(tasks, k)
  {
    if order != [] {
      DependencyIssuesEmpty(tasks, AllBut(order));
      assert order == AllBut(order) + [Last(order)];
      var k := Last(order);
      DepIssuesEmpty(tasks, k, tasks[k].dependencies);
    }
  }

  /** CurrentIds lists exactly the CURRENT tasks, each once. */
  lemma {:induction false} CurrentIdsExact(tasks: map<TaskId, Task>, order: seq<TaskId>)
    requires Listed(tasks, order) && Distinct(order)
    ensures forall k :: k in CurrentIds(tasks, order) <==> k in order && tasks[k].status == CURRENT
    ensures Distinct(CurrentIds(tasks, order))
  {
    if order != [] {
      CurrentIdsExact(tasks, AllBut(order));
      assert order == AllBut(order) + [Last(order)];
      assert Last(order) !in AllBut(order);
    }
  }

  // ---------------------------------------------------------------------
  // Derived current state

  /** Python's `min(ready_tasks, key=priority)` over the tasks in `order`:
      scanning in order, a READY task replaces the best so far only when its
      priority is strictly smaller, so the first minimal one wins. */
  function MinReady(tasks: map<TaskId, Task>, order: seq<TaskId>): (r: Option<TaskId>)
    requires Listed(tasks, order)
    ensures r.None? <==> forall k :: k in order ==> tasks[k].status != READY
    ensures r.Some? ==> r.value in order && tasks[r.value].status == READY
    ensures r.Some? ==> forall k :: k in order && tasks[k].status == READY
                                    ==> tasks[r.value].priority <= tasks[k].priority
  {
    if order == [] then None
    else
      var best := MinReady(tasks, AllBut(order));
      var k := Last(order);
      assert order == AllBut(order) + [k];
      if tasks[k].status == READY && (best.None? || tasks[k].priority < tasks[best.value].priority)
      then Some(k)
      else best
  }

  /** What `_update_current_state` stores as `nextTask`: the `id` field of
      the record MinReady picks (not its key), or null. */
  function NextTaskId(tasks: map<TaskId, Task>, order: seq<TaskId>): Option<TaskId>
    requires Listed(tasks, order)
  {
    match MinReady(tasks, order)
    case None => None
    case Some(k) => Some(tasks[k].id)
  }

  /** Among READY tasks of equal minimal priority, MinReady picks the one
      that comes first. */
  lemma {:induction false} MinReadyFirst(tasks: map<TaskId, Task>, order: seq<TaskId>, i: nat)
    requires Listed(tasks, order) && i < |order| && tasks[order[i]].status == READY
    requires MinReady(tasks, order).Some?
    requires tasks[order[i]].priority == tasks[MinReady(tasks, order).value].priority
    ensures MinReady(tasks, order).value in order[..i + 1]
  {
    var best := MinReady(tasks, AllBut(order));
    var k := Last(order);
    assert order == AllBut(order) + [k];
    if i < |order| - 1 {
      assert AllBut(order)[i] == order[i];
      assert AllBut(order)[..i + 1] == order[..i + 1];
      MinReadyFirst(tasks, AllBut(order), i);
    }
  }

  /** Number of tasks in `order` with status `s`. */
  function CountStatus(tasks: map<TaskId, Task>, order: seq<TaskId>, s: Status): (n: nat)
    requires Listed(tasks, order)
    ensures n <= |order|
  {
    if order == [] then 0
    else CountStatus(tasks, AllBut(order), s) + (if tasks[Last(order)].status == s then 1 else 0)
  }

  /** The records in `order` with status `s`, in that order: the list
      comprehension over the registry's values. */
  function WithStatus(tasks: map<TaskId, Task>, order: seq<TaskId>, s: Status): (r: seq<Task>)
    requires Listed(tasks, order)
    ensures |r| == CountStatus(tasks, order, s)
    ensures forall t :: t in r ==> t.status == s && t in tasks.Values
  {
    if order == [] then []
    else WithStatus(tasks, AllBut(order), s) + (if tasks[Last(order)].status == s then [tasks[Last(order)]] else [])
  }

  /** Python's `round(n / d)` on the exact quotient: to the nearest integer,
      ties to the even one. */
  function RoundHalfEven(n: nat, d: nat): (r: nat)
    requires d > 0
    ensures 2 * (n - r * d) <= d && 2 * (r * d - n) <= d
    ensures (2 * (n - r * d) == d || 2 * (r * d - n) == d) ==> r % 2 == 0
  {
    DivSplit(n, d);
    var q, m := n / d, n % d;
    if 2 * m > d then q + 1
    else if 2 * m < d then q
    else if q % 2 == 0 then q
    else q + 1
  }

  /** Euclidean division: quotient times divisor plus remainder, and the
      next multiple one divisor further. */
  lemma DivSplit(n: nat, d: nat)
    requires d > 0
    ensures n == (n / d) * d + n % d && 0 <= n % d < d
    ensures (n / d + 1) * d == (n / d) * d + d
  {
  }

  /** `overallProgress` recomputed from scratch over all tasks. */
  function ProgressOf(tasks: map<TaskId, Task>, order: seq<TaskId>): Progress
    requires Listed(tasks, order) && |order| > 0
  {
    var completed := CountStatus(tasks, order, COMPLETED);
    Progress(completed, |order|, RoundHalfEven(completed * 100, |order|))
  }

  /** The percentage lies between 0 and 100. */
  lemma PercentageBounded(tasks: map<TaskId, Task>, order: seq<TaskId>)
    requires Listed(tasks, order) && |order| > 0
    ensures ProgressOf(tasks, order).percentage <= 100
    ensures ProgressOf(tasks, order).completed <= ProgressOf(tasks, order).total
  {
    var c := CountStatus(tasks, order, COMPLETED);
    RoundAtMost(c * 100, |order|, 100);
  }

  /** Rounding n / d never exceeds a bound c on n / d. */
  lemma RoundAtMost(n: nat, d: nat, c: nat)
    requires d > 0 && n <= c * d
    ensures RoundHalfEven(n, d) <= c
  {
    var r := RoundHalfEven(n, d);
    assert (c + 1) * d == c * d + d;
    assert r * d < (c + 1) * d;
    MulCancel(r, c + 1, d);
  }

  lemma MulCancel(x: nat, y: nat, d: nat)
    requires x * d < y * d
    ensures x < y
  {
    if x >= y {
      MulMono(y, x, d);
    }
  }

  lemma MulMono(x: nat, y: nat, d: nat)
    requires x <= y
    ensures x * d <= y * d
  {
    assert y * d == x * d + (y - x) * d;
  }

  /** A sequence without repeats has as many elements as it has entries. */
  lemma {:induction false} DistinctCard(order: seq<TaskId>)
    requires Distinct(order)
    ensures |set k | k in order| == |order|
  {
    if order != [] {
      var k := Last(order);
      var front := AllBut(order);
      assert order == front + [k];
      assert k !in front by {
        forall i | 0 <= i < |front| ensures front[i] != k {
          assert front[i] == order[i];
        }
      }
      assert Distinct(front) by {
        forall i, j | 0 <= i < j < |front| ensures front[i] != front[j] {
          assert front[i] == order[i] && front[j] == order[j];
        }
      }
      DistinctCard(front);
      assert (set x | x in order) == (set x | x in front) + {k};
    }
  }

  /** A distinct key order is as long as the dictionary is large. */
  lemma OrderSize(tasks: map<TaskId, Task>, order: seq<TaskId>)
    requires Distinct(order) && forall k :: k in tasks <==> k in order
    ensures |tasks| == |order|
  {
    DistinctCard(order);
    assert tasks.Keys == set k | k in order;
  }

  // ---------------------------------------------------------------------
  // The registry document

  /** The parts of tasks.json both scripts read and write: the tasks (with
      their key order), the `currentState` block and `validation.issues`. */
  class ProjectData {
    var tasks: map<TaskId, Task>
    var order: seq<TaskId>
    var activeTask: Option<TaskId>
    var nextTask: Option<TaskId>
    var overallProgress: Progress
    var currentPhase: string
    var validationIssues: seq<Issue>

    ghost predicate Valid()
      reads this
    {
      WellFormed(tasks, order)
    }

    constructor (tasks: map<TaskId, Task>, order: seq<TaskId>, activeTask: Option<TaskId>,
                 nextTask: Option<TaskId>, overallProgress: Progress, currentPhase: string)
      requires WellFormed(tasks, order)
      ensures Valid()
      ensures this.tasks == tasks && this.order == order
      ensures this.activeTask == activeTask && this.nextTask == nextTask
      ensures this.overallProgress == overallProgress && this.currentPhase == currentPhase
      ensures validationIssues == []
    {
      this.tasks := tasks;
      this.order := order;
      this.activeTask := activeTask;
      this.nextTask := nextTask;
      this.overallProgress := overallProgress;
      this.currentPhase := currentPhase;
      validationIssues := [];
    }
  }
}
