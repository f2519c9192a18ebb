/**
 * TaskRepo: the statements and reads over the tasks table. The tasks of one
 * plan form one sort_order partition; within it the orders should be
 * exactly 0..n-1.
 */
module TaskRepo {
  import opened Errors
  import opened Rows
  import opened SortOrder
  import opened Schema

  // ---------------------------------------------------------------- reads

  /** The orders of plan planId's tasks, in table order. */
  function Orders(tasks: seq<Task>, planId: Id): seq<int>
  {
    PartitionOrders(tasks, TaskPlanIs(planId), TaskMatches, TaskOrder)
  }

  /** The tasks of every plan hold the orders 0..n-1. */
  ghost predicate OrdersDense(tasks: seq<Task>)
  {
    forall p: Id :: Dense(Orders(tasks, p))
  }

  /** SELECT COUNT(1) FROM tasks WHERE plan_id = @planId */
  function GetCount(tasks: seq<Task>, planId: Id): (n: nat)
    ensures n <= |tasks|
    ensures n == |Orders(tasks, planId)|
  {
    Count(tasks, TaskPlanIs(planId), TaskMatches)
  }

  /** GetAll: exactly the plan's tasks, ORDER BY sort_order DESC. */
  function GetAll(tasks: seq<Task>, planId: Id): (r: seq<Task>)
    ensures SortedDesc(r, TaskOrder)
    ensures multiset(r) == multiset(Filter(tasks, TaskPlanIs(planId), TaskMatches, true))
    ensures |r| == GetCount(tasks, planId)
    ensures forall t :: t in r <==> t in tasks && t.planId == planId
  {
    var part := Filter(tasks, TaskPlanIs(planId), TaskMatches, true);
    var r := SortDesc(part, TaskOrder);
    assert forall t :: t in r <==> t in multiset(part);
    r
  }

  /** GetOne: the task with that id, or null. */
  function GetOne(tasks: seq<Task>, id: Id): (r: Option<Task>)
    ensures r.Some? ==> r.value in tasks && r.value.id == id
    ensures r.None? <==> forall i :: 0 <= i < |tasks| ==> tasks[i].id != id
  {
    First(tasks, TaskIdIs(id), TaskMatches)
  }

  // ---------------------------------------------------------------- statements

  /** The SET clauses of the UPDATE statements of TaskRepo; each names the rows it touches. */
  datatype TaskUpdate =
    | SetDone(id: Id, done: bool, at: nat)
    | SetTitle(id: Id, title: string, at: nat)
    | ShiftTasks(planId: Id, shift: Shift)

  /** One row after an UPDATE: the rows its WHERE clause selects get its SET clause. */
  function Updated(t: Task, u: TaskUpdate): (r: Task)
    ensures r.id == t.id && r.planId == t.planId
  {
    match u
    case SetDone(id, done, at) =>
      if t.id == id then t.(done := done, updatedAt := Some(at)) else t
    case SetTitle(id, title, at) =>
      if t.id == id then t.(title := title, updatedAt := Some(at)) else t
    case ShiftTasks(planId, s) =>
      if t.planId == planId then t.(sortOrder := Shifted(t.sortOrder, s)) else t
  }

  /** The row Create inserts. */
  function NewTask(id: Id, planId: Id, title: string, order: int, at: nat): Task
  {
    Task(id, planId, title, false, order, at, None)
  }

  /**
   * UpdateOrderBeforeDelete: plan planId's tasks whose order is above task
   * id's drop by one. With no task id the subquery is NULL and no row matches.
   */
  function Compacted(tasks: seq<Task>, planId: Id, id: Id): seq<Task>
  {
    match First(tasks, TaskIdIs(id), TaskMatches)
    case None => tasks
    case Some(t) => UpdateAll(tasks, ShiftTasks(planId, Compact(t.sortOrder)), Updated)
  }

  // ---------------------------------------------------------------- methods

  method Create(db: Db, planId: Id, title: string) returns (id: Id)
    requires db.Valid()
    modifies db`tasks, db`nextId, db`clock
    ensures db.Valid()
    ensures forall i :: 0 <= i < |old(db.tasks)| ==> old(db.tasks)[i].id != id
    ensures db.tasks == old(db.tasks) + [NewTask(id, planId, title, GetCount(old(db.tasks), planId), old(db.clock))]
    ensures db.Snapshot() == old(db.Snapshot()).(tasks := db.tasks)
    ensures db.nextId == old(db.nextId) + 1 && db.clock == old(db.clock) + 1
  {
    var order := GetCount(db.tasks, planId);
    var now;
    id, now := db.NewRow();
    KeyedAppend(db.tasks, TaskKey, id, NewTask(id, planId, title, order, now));
    db.SetTasks(db.tasks + [NewTask(id, planId, title, order, now)]);
  }

  /** DELETE FROM tasks WHERE id = @id; NotFound when it removed no row. */
  method DeleteOne(db: Db, id: Id) returns (o: Outcome)
    requires db.Valid()
    modifies db`tasks
    ensures db.Valid()
    ensures db.tasks == Filter(old(db.tasks), TaskIdIs(id), TaskMatches, false)
    ensures o == if GetOne(old(db.tasks), id).Some? then Done else Fail(NotFound)
    ensures o.Fail? ==> db.tasks == old(db.tasks)
  {
    var rows, removed := DeleteWhere(db.tasks, TaskIdIs(id), TaskMatches);
    KeyedFilter(db.tasks, TaskKey, db.nextId, TaskIdIs(id), TaskMatches, false);
    CountZero(db.tasks, TaskIdIs(id), TaskMatches);
    if removed == 0 {
      FilterNone(db.tasks, TaskIdIs(id), TaskMatches);
      o := Fail(NotFound);
    } else {
      o := Done;
    }
    db.SetTasks(rows);
  }

  /** DELETE FROM tasks WHERE plan_id = @planId */
  method DeleteAll(db: Db, planId: Id)
    requires db.Valid()
    modifies db`tasks
    ensures db.Valid()
    ensures db.tasks == Filter(old(db.tasks), TaskPlanIs(planId), TaskMatches, false)
  {
    var rows, removed := DeleteWhere(db.tasks, TaskPlanIs(planId), TaskMatches);
    KeyedFilter(db.tasks, TaskKey, db.nextId, TaskPlanIs(planId), TaskMatches, false);
    db.SetTasks(rows);
  }

  /** UPDATE tasks SET done, updated_at WHERE id = @id; NotFound when it updated no row. */
  method UpdateDone(db: Db, id: Id, done: bool) returns (o: Outcome)
    requires db.Valid()
    modifies db`tasks
    ensures db.Valid()
    ensures db.tasks == UpdateAll(old(db.tasks), SetDone(id, done, db.clock), Updated)
    ensures o == if GetOne(old(db.tasks), id).Some? then Done else Fail(NotFound)
  {
    o := UpdateOne(db, SetDone(id, done, db.clock));
  }

  /** UPDATE tasks SET title, updated_at WHERE id = @id; NotFound when it updated no row. */
  method UpdateTitle(db: Db, id: Id, title: string) returns (o: Outcome)
    requires db.Valid()
    modifies db`tasks
    ensures db.Valid()
    ensures db.tasks == UpdateAll(old(db.tasks), SetTitle(id, title, db.clock), Updated)
    ensures o == if GetOne(old(db.tasks), id).Some? then Done else Fail(NotFound)
  {
    o := UpdateOne(db, SetTitle(id, title, db.clock));
  }

  /** An UPDATE ... WHERE id = @id that reports NotFound when the row count is 0. */
  method UpdateOne(db: Db, u: TaskUpdate) returns (o: Outcome)
    requires db.Valid() && !u.ShiftTasks?
    modifies db`tasks
    ensures db.Valid()
    ensures db.tasks == UpdateAll(old(db.tasks), u, Updated)
    ensures o == if GetOne(old(db.tasks), u.id).Some? then Done else Fail(NotFound)
  {
    var updated := Count(db.tasks, TaskIdIs(u.id), TaskMatches);
    CountZero(db.tasks, TaskIdIs(u.id), TaskMatches);
    var rows := UpdateEach(db.tasks, u, Updated);
    KeyedUpdated(db.tasks, db.nextId, u);
    db.SetTasks(rows);
    o := if updated == 0 then Fail(NotFound) else Done;
  }

  method UpdateOrderBeforeDelete(db: Db, planId: Id, id: Id)
    requires db.Valid()
    modifies db`tasks
    ensures db.Valid()
    ensures db.tasks == Compacted(old(db.tasks), planId, id)
  {
    match First(db.tasks, TaskIdIs(id), TaskMatches)
    case None =>
    case Some(t) =>
      var rows := UpdateEach(db.tasks, ShiftTasks(planId, Compact(t.sortOrder)), Updated);
      KeyedUpdated(db.tasks, db.nextId, ShiftTasks(planId, Compact(t.sortOrder)));
      db.SetTasks(rows);
  }

  /** The CASE statement of UpdateOrder over plan planId's tasks. */
  method UpdateOrder(db: Db, planId: Id, oldOrder: int, newOrder: int)
    requires db.Valid()
    modifies db`tasks
    ensures db.Valid()
    ensures db.tasks == UpdateAll(old(db.tasks), ShiftTasks(planId, Move(oldOrder, newOrder)), Updated)
  {
    var rows := UpdateEach(db.tasks, ShiftTasks(planId, Move(oldOrder, newOrder)), Updated);
    KeyedUpdated(db.tasks, db.nextId, ShiftTasks(planId, Move(oldOrder, newOrder)));
    db.SetTasks(rows);
  }

  // ---------------------------------------------------------------- properties

  /** The UPDATEs never change a task's id. */
  lemma KeyedUpdated(tasks: seq<Task>, bound: nat, u: TaskUpdate)
    requires Keyed(tasks, TaskKey, bound)
    ensures Keyed(UpdateAll(tasks, u, Updated), TaskKey, bound)
  {
  }

  /** In a keyed table the lookup by id finds the one row with that id. */
  lemma FindAt(tasks: seq<Task>, bound: nat, k: int)
    requires Keyed(tasks, TaskKey, bound) && 0 <= k < |tasks|
    ensures GetOne(tasks, tasks[k].id) == Some(tasks[k])
  {
    var r := GetOne(tasks, tasks[k].id);
    assert TaskMatches(tasks[k], TaskIdIs(tasks[k].id));
    var j :| 0 <= j < |tasks| && tasks[j] == r.value;
    KeyedUnique(tasks, TaskKey, bound, j, k);
  }

  /** In a keyed table, UpdateDone and UpdateTitle of the id of row k change row k and no other. */
  lemma UpdatedAt(tasks: seq<Task>, bound: nat, k: int, u: TaskUpdate)
    requires Keyed(tasks, TaskKey, bound) && 0 <= k < |tasks|
    requires !u.ShiftTasks? && u.id == tasks[k].id
    ensures var r := UpdateAll(tasks, u, Updated);
      && (forall i :: 0 <= i < |tasks| && i != k ==> r[i] == tasks[i])
      && (u.SetDone? ==> r[k] == tasks[k].(done := u.done, updatedAt := Some(u.at)))
      && (u.SetTitle? ==> r[k] == tasks[k].(title := u.title, updatedAt := Some(u.at)))
  {
    forall i | 0 <= i < |tasks| && i != k
      ensures tasks[i].id != u.id
    {
      assert TaskKey(tasks[i]) != TaskKey(tasks[k]);
    }
  }

  /** UpdateDone and UpdateTitle of an id no task has change nothing. */
  lemma UpdateMissingIsIdentity(tasks: seq<Task>, u: TaskUpdate)
    requires !u.ShiftTasks? && GetOne(tasks, u.id).None?
    ensures UpdateAll(tasks, u, Updated) == tasks
  {
  }

  /** Create's row takes the next order of its plan, and every plan's tasks stay dense. */
  lemma CreateKeepsDense(tasks: seq<Task>, id: Id, planId: Id, title: string, at: nat)
    requires OrdersDense(tasks)
    ensures var t := NewTask(id, planId, title, GetCount(tasks, planId), at);
      && OrdersDense(tasks + [t])
      && Orders(tasks + [t], planId) == Orders(tasks, planId) + [|Orders(tasks, planId)|]
  {
    var t := NewTask(id, planId, title, GetCount(tasks, planId), at);
    forall p: Id
      ensures Dense(Orders(tasks + [t], p))
    {
      assert Dense(Orders(tasks, p));
      AppendKeepsDense(tasks, t, TaskPlanIs(p), TaskMatches, TaskOrder);
    }
    PartitionOrdersConcat(tasks, [t], TaskPlanIs(planId), TaskMatches, TaskOrder);
    PartitionOrdersSingle(t, TaskPlanIs(planId), TaskMatches, TaskOrder);
  }

  /** UpdateDone and UpdateTitle leave every plan's orders as they were. */
  lemma FieldsKeepOrders(tasks: seq<Task>, u: TaskUpdate, planId: Id)
    requires !u.ShiftTasks?
    ensures Orders(UpdateAll(tasks, u, Updated), planId) == Orders(tasks, planId)
  {
    PartitionUntouched(tasks, UpdateAll(tasks, u, Updated), TaskPlanIs(planId), TaskMatches, TaskOrder);
  }

  /** UpdateDone and UpdateTitle keep every plan's orders dense and every plan's task count. */
  lemma FieldsKeepDense(tasks: seq<Task>, u: TaskUpdate)
    requires !u.ShiftTasks? && OrdersDense(tasks)
    ensures OrdersDense(UpdateAll(tasks, u, Updated))
    ensures forall p :: GetCount(UpdateAll(tasks, u, Updated), p) == GetCount(tasks, p)
  {
    forall p: Id
      ensures Orders(UpdateAll(tasks, u, Updated), p) == Orders(tasks, p)
    {
      FieldsKeepOrders(tasks, u, p);
    }
  }

  /**
   * UpdateOrderBeforeDelete on task k decrements exactly the tasks of planId
   * whose order is strictly above task k's; task k keeps its order.
   */
  lemma CompactedRows(tasks: seq<Task>, bound: nat, planId: Id, k: int)
    requires Keyed(tasks, TaskKey, bound) && 0 <= k < |tasks|
    ensures var c := Compacted(tasks, planId, tasks[k].id);
      && |c| == |tasks|
      && c[k] == tasks[k]
      && forall i :: 0 <= i < |tasks| ==>
           c[i] == if tasks[i].planId == planId && tasks[i].sortOrder > tasks[k].sortOrder
                   then tasks[i].(sortOrder := tasks[i].sortOrder - 1)
                   else tasks[i]
  {
    FindAt(tasks, bound, k);
  }

  /** UpdateOrder with oldOrder == newOrder changes nothing. */
  lemma MoveToSelfIsIdentity(tasks: seq<Task>, planId: Id, order: int)
    ensures UpdateAll(tasks, ShiftTasks(planId, Move(order, order)), Updated) == tasks
  {
    var after := UpdateAll(tasks, ShiftTasks(planId, Move(order, order)), Updated);
    forall i | 0 <= i < |tasks|
      ensures after[i] == tasks[i]
    {
      assert Shifted(tasks[i].sortOrder, Move(order, order)) == tasks[i].sortOrder;
    }
  }

  lemma MovePartitionDense(tasks: seq<Task>, planId: Id, oldOrder: int, newOrder: int, p: Id)
    requires Dense(Orders(tasks, p))
    requires p == planId ==> !ReorderRejected(GetCount(tasks, planId), oldOrder, newOrder)
    ensures Dense(Orders(UpdateAll(tasks, ShiftTasks(planId, Move(oldOrder, newOrder)), Updated), p))
  {
    var after := UpdateAll(tasks, ShiftTasks(planId, Move(oldOrder, newOrder)), Updated);
    if p == planId {
      PartitionShifted(tasks, after, TaskPlanIs(p), TaskMatches, TaskOrder, Move(oldOrder, newOrder));
      GuardedMoveKeepsDense(Orders(tasks, p), oldOrder, newOrder);
    } else {
      PartitionUntouched(tasks, after, TaskPlanIs(p), TaskMatches, TaskOrder);
    }
  }

  /**
   * UpdateOrder with both indices naming a position of the plan's tasks keeps
   * every plan's tasks dense, and the task at oldOrder lands on newOrder.
   */
  lemma MoveKeepsDense(tasks: seq<Task>, planId: Id, oldOrder: int, newOrder: int)
    requires OrdersDense(tasks)
    requires !ReorderRejected(GetCount(tasks, planId), oldOrder, newOrder)
    ensures var after := UpdateAll(tasks, ShiftTasks(planId, Move(oldOrder, newOrder)), Updated);
      && OrdersDense(after)
      && forall i :: 0 <= i < |tasks| && tasks[i].planId == planId && tasks[i].sortOrder == oldOrder ==>
           after[i].sortOrder == newOrder
  {
    forall p: Id
      ensures Dense(Orders(UpdateAll(tasks, ShiftTasks(planId, Move(oldOrder, newOrder)), Updated), p))
    {
      assert Dense(Orders(tasks, p));
      MovePartitionDense(tasks, planId, oldOrder, newOrder, p);
    }
  }

  /** In a keyed table, deleting by the id of row k removes row k and nothing else. */
  lemma WithoutAt(tasks: seq<Task>, bound: nat, k: int)
    requires Keyed(tasks, TaskKey, bound) && 0 <= k < |tasks|
    ensures Filter(tasks, TaskIdIs(tasks[k].id), TaskMatches, false) == tasks[..k] + tasks[k + 1..]
  {
    FilterOnly(tasks, TaskIdIs(tasks[k].id), TaskMatches, k);
  }

  /** The per-row facts RemoveRowKeepsDense needs, for the compaction of task k's plan. */
  lemma CompactedRowsMatch(tasks: seq<Task>, k: int, w: TaskWhere)
    requires 0 <= k < |tasks| && w.TaskPlanIs?
    ensures var t := tasks[k];
      var c := UpdateAll(tasks, ShiftTasks(t.planId, Compact(t.sortOrder)), Updated);
      && c[k] == t
      && (forall i :: 0 <= i < |tasks| && i != k ==> TaskMatches(c[i], w) == TaskMatches(tasks[i], w))
      && (forall i :: 0 <= i < |tasks| && i != k && TaskMatches(tasks[i], w) ==>
            TaskOrder(c[i]) == if TaskMatches(tasks[k], w) then Shifted(TaskOrder(tasks[i]), Compact(TaskOrder(tasks[k]))) else TaskOrder(tasks[i]))
  {
  }

  lemma DeletePartitionDense(tasks: seq<Task>, bound: nat, k: int, p: Id)
    requires Keyed(tasks, TaskKey, bound) && 0 <= k < |tasks|
    requires Dense(Orders(tasks, p))
    ensures var t := tasks[k];
      Dense(Orders(Filter(Compacted(tasks, t.planId, t.id), TaskIdIs(t.id), TaskMatches, false), p))
  {
    var t := tasks[k];
    var c := UpdateAll(tasks, ShiftTasks(t.planId, Compact(t.sortOrder)), Updated);
    assert Compacted(tasks, t.planId, t.id) == c by {
      FindAt(tasks, bound, k);
    }
    assert Filter(c, TaskIdIs(t.id), TaskMatches, false) == c[..k] + c[k + 1..] by {
      KeyedUpdated(tasks, bound, ShiftTasks(t.planId, Compact(t.sortOrder)));
      WithoutAt(c, bound, k);
    }
    CompactedRowsMatch(tasks, k, TaskPlanIs(p));
    RemoveRowKeepsDense(tasks, c, k, TaskPlanIs(p), TaskMatches, TaskOrder);
  }

  /**
   * UpdateOrderBeforeDelete then DeleteOne of task k, with task k's own plan
   * (TaskService.Delete), keeps every plan's tasks dense.
   */
  lemma DeleteKeepsDense(tasks: seq<Task>, bound: nat, k: int)
    requires Keyed(tasks, TaskKey, bound) && OrdersDense(tasks) && 0 <= k < |tasks|
    ensures var t := tasks[k];
      OrdersDense(Filter(Compacted(tasks, t.planId, t.id), TaskIdIs(t.id), TaskMatches, false))
  {
    var t := tasks[k];
    forall p: Id
      ensures Dense(Orders(Filter(Compacted(tasks, t.planId, t.id), TaskIdIs(t.id), TaskMatches, false), p))
    {
      assert Dense(Orders(tasks, p));
      DeletePartitionDense(tasks, bound, k, p);
    }
  }

  /** DeleteAll empties the plan's partition and leaves every other plan's tasks as they were. */
  lemma DeleteAllKeepsDense(tasks: seq<Task>, planId: Id)
    requires OrdersDense(tasks)
    ensures var r := Filter(tasks, TaskPlanIs(planId), TaskMatches, false);
      && Orders(r, planId) == []
      && (forall p: Id :: p != planId ==> Orders(r, p) == Orders(tasks, p))
      && OrdersDense(r)
  {
    var r := Filter(tasks, TaskPlanIs(planId), TaskMatches, false);
    PartitionOrdersEmptied(tasks, TaskPlanIs(planId), TaskPlanIs(planId), TaskMatches, TaskOrder);
    forall p: Id
      ensures Orders(r, p) == if p == planId then [] else Orders(tasks, p)
    {
      if p != planId {
        PartitionOrdersWithout(tasks, TaskPlanIs(planId), TaskPlanIs(p), TaskMatches, TaskOrder);
      }
    }
    forall p: Id
      ensures Dense(Orders(r, p))
    {
      assert Dense(Orders(tasks, p));
    }
  }
}
