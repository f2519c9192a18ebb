/**
 * TaskService: the task operations. Create, Delete and UpdateDone run in one
 * transaction each: a failure part way restores the tables as they were.
 * Every write that adds, removes or marks a task recomputes the plan's
 * done_percent from the tasks as they are at that point.
 */
module TaskService {
  import opened Errors
  import opened Rows
  import opened SortOrder
  import opened Schema
  import PlanRepo
  import TaskRepo

  /** The number of tasks a plan may hold. */
  const MaxTasks := 100

  /** The order UpdateDone moves a task to: the bottom (0) when done, the top (count - 1) when undone. */
  function DoneTarget(done: bool, count: nat): (r: int)
    ensures count > 0 ==> 0 <= r < count
    ensures done ==> r == 0
    ensures !done ==> r == count - 1
  {
    if done then 0 else count - 1
  }

  /**
   * The tasks after a successful UpdateDone of task id: the task is marked,
   * then moved within plan planId from its order to DoneTarget.
   */
  function AfterUpdateDone(tasks: seq<Task>, planId: Id, id: Id, done: bool, at: nat): seq<Task>
    requires TaskRepo.GetOne(tasks, id).Some?
  {
    var marked := UpdateAll(tasks, TaskRepo.SetDone(id, done, at), TaskRepo.Updated);
    var from := TaskRepo.GetOne(tasks, id).value.sortOrder;
    UpdateAll(marked, TaskRepo.ShiftTasks(planId, Move(from, DoneTarget(done, TaskRepo.GetCount(tasks, planId)))), TaskRepo.Updated)
  }

  // ---------------------------------------------------------------- operations

  /** Create: refused when the plan holds 100 tasks; else the task goes on top and done_percent is recomputed. */
  method Create(db: Db, planId: Id, title: string) returns (r: Result<Id>)
    requires db.Valid()
    modifies db
    ensures db.Valid()
    ensures r.Failure? <==> TaskRepo.GetCount(old(db.tasks), planId) >= MaxTasks
    ensures r.Failure? ==> r.error == LogicError("Max is 100") && unchanged(db)
    ensures r.Ok? ==> db.tasks == old(db.tasks) + [TaskRepo.NewTask(r.value, planId, title, TaskRepo.GetCount(old(db.tasks), planId), old(db.clock))]
    ensures r.Ok? ==> db.plans == UpdateAll(old(db.plans), PlanRepo.SetDonePercent(planId, PlanRepo.DonePercent(db.tasks, planId)), PlanRepo.Updated)
    ensures r.Ok? ==> TaskRepo.GetCount(db.tasks, planId) == TaskRepo.GetCount(old(db.tasks), planId) + 1 <= MaxTasks
    ensures db.Snapshot() == old(db.Snapshot()).(plans := db.plans, tasks := db.tasks)
  {
    var count := TaskRepo.GetCount(db.tasks, planId);
    if count >= MaxTasks {
      return Failure(LogicError("Max is 100"));
    }
    var id := TaskRepo.Create(db, planId, title);
    CountLast(db.tasks, TaskPlanIs(planId), TaskMatches);
    PlanRepo.UpdateDonePercent(db, planId);
    r := Ok(id);
  }

  /**
   * Delete: closes the task's gap in plan planId, deletes it and recomputes
   * done_percent; an unknown task is NotFound and leaves every table as it was.
   */
  method Delete(db: Db, planId: Id, id: Id) returns (o: Outcome)
    requires db.Valid()
    modifies db
    ensures db.Valid()
    ensures o == if TaskRepo.GetOne(old(db.tasks), id).Some? then Done else Fail(NotFound)
    ensures o.Fail? ==> db.plans == old(db.plans) && db.tasks == old(db.tasks)
    ensures o.Done? ==> db.tasks == Filter(TaskRepo.Compacted(old(db.tasks), planId, id), TaskIdIs(id), TaskMatches, false)
    ensures o.Done? ==> db.plans == UpdateAll(old(db.plans), PlanRepo.SetDonePercent(planId, PlanRepo.DonePercent(db.tasks, planId)), PlanRepo.Updated)
    ensures db.Snapshot() == old(db.Snapshot()).(plans := db.plans, tasks := db.tasks)
  {
    var saved := db.Snapshot();
    o := RemoveTask(db, planId, id);
    if o.Fail? {
      db.Restore(saved);
      return;
    }
    PlanRepo.UpdateDonePercent(db, planId);
  }

  /** The task statements of Delete: UpdateOrderBeforeDelete, then DeleteOne. */
  method RemoveTask(db: Db, planId: Id, id: Id) returns (o: Outcome)
    requires db.Valid()
    modifies db`tasks
    ensures db.Valid()
    ensures o == if TaskRepo.GetOne(old(db.tasks), id).Some? then Done else Fail(NotFound)
    ensures o.Fail? ==> db.tasks == old(db.tasks)
    ensures o.Done? ==> db.tasks == Filter(TaskRepo.Compacted(old(db.tasks), planId, id), TaskIdIs(id), TaskMatches, false)
  {
    CompactKeepsTask(db.tasks, planId, id);
    TaskRepo.UpdateOrderBeforeDelete(db, planId, id);
    o := TaskRepo.DeleteOne(db, id);
  }

  /**
   * UpdateDone: marks the task, recomputes done_percent, then moves the task
   * to the bottom of plan planId when done and to the top when undone. A
   * move the guard rejects rolls everything back.
   */
  method UpdateDone(db: Db, planId: Id, id: Id, done: bool) returns (o: Outcome)
    requires db.Valid()
    modifies db
    ensures db.Valid()
    ensures TaskRepo.GetOne(old(db.tasks), id).None? ==> o == Fail(NotFound)
    ensures TaskRepo.GetOne(old(db.tasks), id).Some? ==>
      var count := TaskRepo.GetCount(old(db.tasks), planId);
      var from := TaskRepo.GetOne(old(db.tasks), id).value.sortOrder;
      o == if from != DoneTarget(done, count) && ReorderRejected(count, from, DoneTarget(done, count))
           then Fail(ReorderError(count))
           else Done
    ensures o.Fail? ==> db.plans == old(db.plans) && db.tasks == old(db.tasks)
    ensures o.Done? ==> db.tasks == AfterUpdateDone(old(db.tasks), planId, id, done, db.clock)
    ensures o.Done? ==> db.plans == UpdateAll(old(db.plans), PlanRepo.SetDonePercent(planId, PlanRepo.DonePercent(db.tasks, planId)), PlanRepo.Updated)
    ensures db.Snapshot() == old(db.Snapshot()).(plans := db.plans, tasks := db.tasks)
  {
    var saved := db.Snapshot();
    o := MarkAndMove(db, planId, id, done);
    if o.Fail? {
      db.Restore(saved);
    }
  }

  /** The statements of UpdateDone inside its transaction: UpdateDone of the task, then AfterMark. */
  method MarkAndMove(db: Db, planId: Id, id: Id, done: bool) returns (o: Outcome)
    requires db.Valid()
    modifies db`plans, db`tasks
    ensures db.Valid()
    ensures TaskRepo.GetOne(old(db.tasks), id).None? ==> o == Fail(NotFound)
    ensures TaskRepo.GetOne(old(db.tasks), id).Some? ==>
      var count := TaskRepo.GetCount(old(db.tasks), planId);
      var from := TaskRepo.GetOne(old(db.tasks), id).value.sortOrder;
      o == if from != DoneTarget(done, count) && ReorderRejected(count, from, DoneTarget(done, count))
           then Fail(ReorderError(count))
           else Done
    ensures o.Done? ==> db.tasks == AfterUpdateDone(old(db.tasks), planId, id, done, old(db.clock))
    ensures o.Done? ==> db.plans == UpdateAll(old(db.plans), PlanRepo.SetDonePercent(planId, PlanRepo.DonePercent(db.tasks, planId)), PlanRepo.Updated)
  {
    ghost var before, at := db.tasks, db.clock;
    o := TaskRepo.UpdateDone(db, id, done);
    if o.Done? {
      ghost var marked := db.tasks;
      MarkedFound(before, marked, db.nextId, id, done, at);
      o := AfterMark(db, planId, id, done);
      MarkedThenMoved(before, marked, db.nextId, planId, id, done, at, o, db.tasks);
    }
  }

  /** The lines of UpdateDone after the task was marked: done_percent, then the move. */
  method AfterMark(db: Db, planId: Id, id: Id, done: bool) returns (o: Outcome)
    requires db.Valid() && TaskRepo.GetOne(db.tasks, id).Some?
    modifies db`plans, db`tasks
    ensures db.Valid()
    ensures var count := TaskRepo.GetCount(old(db.tasks), planId);
      var from := TaskRepo.GetOne(old(db.tasks), id).value.sortOrder;
      o == if from != DoneTarget(done, count) && ReorderRejected(count, from, DoneTarget(done, count))
           then Fail(ReorderError(count))
           else Done
    ensures var from := TaskRepo.GetOne(old(db.tasks), id).value.sortOrder;
      o.Done? ==> db.tasks == UpdateAll(old(db.tasks), TaskRepo.ShiftTasks(planId, Move(from, DoneTarget(done, TaskRepo.GetCount(old(db.tasks), planId)))), TaskRepo.Updated)
    ensures o.Done? ==> db.plans == UpdateAll(old(db.plans), PlanRepo.SetDonePercent(planId, PlanRepo.DonePercent(db.tasks, planId)), PlanRepo.Updated)
  {
    PlanRepo.UpdateDonePercent(db, planId);
    o := MoveMarked(db, planId, id, done);
  }

  /**
   * What MoveMarked states about the marked tasks, restated about the tasks
   * before marking: marking keeps the task's order and the plan's count.
   */
  lemma MarkedThenMoved(before: seq<Task>, marked: seq<Task>, bound: nat, planId: Id, id: Id, done: bool, at: nat, o: Outcome, after: seq<Task>)
    requires Keyed(before, TaskKey, bound) && TaskRepo.GetOne(before, id).Some?
    requires marked == UpdateAll(before, TaskRepo.SetDone(id, done, at), TaskRepo.Updated)
    requires TaskRepo.GetOne(marked, id).Some?
    requires var count := TaskRepo.GetCount(marked, planId);
      var from := TaskRepo.GetOne(marked, id).value.sortOrder;
      && o == (if from != DoneTarget(done, count) && ReorderRejected(count, from, DoneTarget(done, count))
               then Fail(ReorderError(count))
               else Done)
      && (o.Done? ==> after == UpdateAll(marked, TaskRepo.ShiftTasks(planId, Move(from, DoneTarget(done, count))), TaskRepo.Updated))
    ensures var count := TaskRepo.GetCount(before, planId);
      var from := TaskRepo.GetOne(before, id).value.sortOrder;
      o == if from != DoneTarget(done, count) && ReorderRejected(count, from, DoneTarget(done, count))
           then Fail(ReorderError(count))
           else Done
    ensures o.Done? ==> after == AfterUpdateDone(before, planId, id, done, at)
  {
    MarkKeepsTask(before, bound, planId, id, done, at);
  }

  /** Marking a task keeps it findable by its id. */
  lemma MarkedFound(before: seq<Task>, marked: seq<Task>, bound: nat, id: Id, done: bool, at: nat)
    requires Keyed(before, TaskKey, bound) && TaskRepo.GetOne(before, id).Some?
    requires marked == UpdateAll(before, TaskRepo.SetDone(id, done, at), TaskRepo.Updated)
    ensures TaskRepo.GetOne(marked, id).Some?
  {
    MarkKeepsTask(before, bound, 0, id, done, at);
  }

  /** The ReOrder step of UpdateDone: task id, already marked, moves to DoneTarget within plan planId. */
  method MoveMarked(db: Db, planId: Id, id: Id, done: bool) returns (o: Outcome)
    requires db.Valid() && TaskRepo.GetOne(db.tasks, id).Some?
    modifies db`tasks
    ensures db.Valid()
    ensures var count := TaskRepo.GetCount(old(db.tasks), planId);
      var from := TaskRepo.GetOne(old(db.tasks), id).value.sortOrder;
      o == if from != DoneTarget(done, count) && ReorderRejected(count, from, DoneTarget(done, count))
           then Fail(ReorderError(count))
           else Done
    ensures var from := TaskRepo.GetOne(old(db.tasks), id).value.sortOrder;
      o.Done? ==> db.tasks == UpdateAll(old(db.tasks), TaskRepo.ShiftTasks(planId, Move(from, DoneTarget(done, TaskRepo.GetCount(old(db.tasks), planId)))), TaskRepo.Updated)
    ensures o.Done? ==> PlanRepo.DonePercent(db.tasks, planId) == PlanRepo.DonePercent(old(db.tasks), planId)
    ensures o.Fail? ==> db.tasks == old(db.tasks)
    ensures db.Snapshot() == old(db.Snapshot()).(tasks := db.tasks)
  {
    var count := TaskRepo.GetCount(db.tasks, planId);
    var from := TaskRepo.GetOne(db.tasks, id).value.sortOrder;
    ShiftKeepsProgress(db.tasks, planId, from, DoneTarget(done, count));
    o := ReOrder(db, planId, from, DoneTarget(done, count));
  }

  /** UpdateTitle: the task's title; NotFound for an unknown task. No other row changes. */
  method UpdateTitle(db: Db, id: Id, title: string) returns (o: Outcome)
    requires db.Valid()
    modifies db
    ensures db.Valid()
    ensures o == if TaskRepo.GetOne(old(db.tasks), id).Some? then Done else Fail(NotFound)
    ensures db.tasks == UpdateAll(old(db.tasks), TaskRepo.SetTitle(id, title, db.clock), TaskRepo.Updated)
    ensures db.Snapshot() == old(db.Snapshot()).(tasks := db.tasks)
  {
    o := TaskRepo.UpdateTitle(db, id, title);
  }

  /**
   * ReOrder: moves the task of plan planId at oldOrder to newOrder. Equal
   * orders change nothing; otherwise the corrected guard applies.
   */
  method ReOrder(db: Db, planId: Id, oldOrder: int, newOrder: int) returns (o: Outcome)
    requires db.Valid()
    modifies db`tasks
    ensures db.Valid()
    ensures var count := TaskRepo.GetCount(old(db.tasks), planId);
      o == if oldOrder != newOrder && ReorderRejected(count, oldOrder, newOrder)
           then Fail(ReorderError(count))
           else Done
    ensures o.Fail? || oldOrder == newOrder ==> db.tasks == old(db.tasks)
    ensures o.Done? ==> db.tasks == UpdateAll(old(db.tasks), TaskRepo.ShiftTasks(planId, Move(oldOrder, newOrder)), TaskRepo.Updated)
  {
    if oldOrder == newOrder {
      TaskRepo.MoveToSelfIsIdentity(db.tasks, planId, oldOrder);
      return Done;
    }
    var count := TaskRepo.GetCount(db.tasks, planId);
    if ReorderRejected(count, oldOrder, newOrder) {
      return Fail(ReorderError(count));
    }
    TaskRepo.UpdateOrder(db, planId, oldOrder, newOrder);
    o := Done;
  }

  // ---------------------------------------------------------------- properties

  /** Closing a task's gap keeps every task, that one included, findable by id. */
  lemma CompactKeepsTask(tasks: seq<Task>, planId: Id, id: Id)
    ensures TaskRepo.GetOne(TaskRepo.Compacted(tasks, planId, id), id).Some? <==> TaskRepo.GetOne(tasks, id).Some?
  {
    var c := TaskRepo.Compacted(tasks, planId, id);
    if TaskRepo.GetOne(tasks, id).Some? {
      var k :| 0 <= k < |tasks| && tasks[k] == TaskRepo.GetOne(tasks, id).value;
      assert c[k].id == id;
    }
  }

  /** Marking a task keeps it findable with its order, and keeps every plan's count. */
  lemma MarkKeepsTask(tasks: seq<Task>, bound: nat, planId: Id, id: Id, done: bool, at: nat)
    requires Keyed(tasks, TaskKey, bound) && TaskRepo.GetOne(tasks, id).Some?
    ensures var marked := UpdateAll(tasks, TaskRepo.SetDone(id, done, at), TaskRepo.Updated);
      && TaskRepo.GetOne(marked, id).Some?
      && TaskRepo.GetOne(marked, id).value.sortOrder == TaskRepo.GetOne(tasks, id).value.sortOrder
      && TaskRepo.GetCount(marked, planId) == TaskRepo.GetCount(tasks, planId)
      && AfterUpdateDone(tasks, planId, id, done, at)
         == UpdateAll(marked, TaskRepo.ShiftTasks(planId, Move(TaskRepo.GetOne(marked, id).value.sortOrder,
                                                                DoneTarget(done, TaskRepo.GetCount(marked, planId)))), TaskRepo.Updated)
  {
    var marked := UpdateAll(tasks, TaskRepo.SetDone(id, done, at), TaskRepo.Updated);
    var k :| 0 <= k < |tasks| && tasks[k] == TaskRepo.GetOne(tasks, id).value;
    TaskRepo.FindAt(tasks, bound, k);
    TaskRepo.UpdatedAt(tasks, bound, k, TaskRepo.SetDone(id, done, at));
    TaskRepo.KeyedUpdated(tasks, bound, TaskRepo.SetDone(id, done, at));
    TaskRepo.FindAt(marked, bound, k);
    CountPreserved(tasks, marked, TaskPlanIs(planId), TaskMatches);
  }

  /** Moving tasks within a plan changes no task's plan or done flag, so no plan's done_percent. */
  lemma ShiftKeepsProgress(tasks: seq<Task>, planId: Id, from: int, to: int)
    ensures forall p :: PlanRepo.DonePercent(UpdateAll(tasks, TaskRepo.ShiftTasks(planId, Move(from, to)), TaskRepo.Updated), p)
                     == PlanRepo.DonePercent(tasks, p)
  {
    var after := UpdateAll(tasks, TaskRepo.ShiftTasks(planId, Move(from, to)), TaskRepo.Updated);
    forall p
      ensures PlanRepo.DonePercent(after, p) == PlanRepo.DonePercent(tasks, p)
    {
      CountPreserved(tasks, after, DoneInPlan(p), TaskMatches);
      CountPreserved(tasks, after, TaskPlanIs(p), TaskMatches);
    }
  }

  /** Create adds one task, not done, to the plan: the total grows by one and the done count stays. */
  lemma CreateProgress(tasks: seq<Task>, id: Id, planId: Id, title: string, order: int, at: nat)
    ensures var before := PlanRepo.DonePercent(tasks, planId);
      PlanRepo.DonePercent(tasks + [TaskRepo.NewTask(id, planId, title, order, at)], planId)
        == Progress(before.done, before.total + 1)
  {
    var t := TaskRepo.NewTask(id, planId, title, order, at);
    CountConcat(tasks, [t], DoneInPlan(planId), TaskMatches);
    CountConcat(tasks, [t], TaskPlanIs(planId), TaskMatches);
    assert Count([t], DoneInPlan(planId), TaskMatches) == 0;
    assert Count([t], TaskPlanIs(planId), TaskMatches) == 1;
  }

  /** Deleting a task of plan planId keeps every plan's tasks dense. */
  lemma DeleteKeepsDense(tasks: seq<Task>, bound: nat, planId: Id, id: Id)
    requires Keyed(tasks, TaskKey, bound) && TaskRepo.OrdersDense(tasks)
    requires TaskRepo.GetOne(tasks, id).Some? && TaskRepo.GetOne(tasks, id).value.planId == planId
    ensures TaskRepo.OrdersDense(Filter(TaskRepo.Compacted(tasks, planId, id), TaskIdIs(id), TaskMatches, false))
  {
    var k :| 0 <= k < |tasks| && tasks[k] == TaskRepo.GetOne(tasks, id).value;
    TaskRepo.DeleteKeepsDense(tasks, bound, k);
  }

  /**
   * UpdateDone of a task of plan planId in a dense table is never rejected,
   * keeps every plan's tasks dense, and leaves the task marked at the bottom
   * when done and at the top when undone.
   */
  lemma UpdateDoneKeepsDense(tasks: seq<Task>, bound: nat, planId: Id, id: Id, done: bool, at: nat)
    requires Keyed(tasks, TaskKey, bound) && TaskRepo.OrdersDense(tasks)
    requires TaskRepo.GetOne(tasks, id).Some? && TaskRepo.GetOne(tasks, id).value.planId == planId
    ensures var count := TaskRepo.GetCount(tasks, planId);
      !ReorderRejected(count, TaskRepo.GetOne(tasks, id).value.sortOrder, DoneTarget(done, count))
    ensures TaskRepo.OrdersDense(AfterUpdateDone(tasks, planId, id, done, at))
    ensures var after := AfterUpdateDone(tasks, planId, id, done, at);
      exists k :: 0 <= k < |after| && after[k].id == id && after[k].done == done
        && after[k].sortOrder == DoneTarget(done, TaskRepo.GetCount(tasks, planId))
  {
    var count := TaskRepo.GetCount(tasks, planId);
    var t := TaskRepo.GetOne(tasks, id).value;
    var k :| 0 <= k < |tasks| && tasks[k] == t;
    TaskRepo.FindAt(tasks, bound, k);
    assert Dense(TaskRepo.Orders(tasks, planId));
    OrderInPartition(tasks, k, TaskPlanIs(planId), TaskMatches, TaskOrder);
    assert 0 <= t.sortOrder < count;
    var marked := UpdateAll(tasks, TaskRepo.SetDone(id, done, at), TaskRepo.Updated);
    TaskRepo.UpdatedAt(tasks, bound, k, TaskRepo.SetDone(id, done, at));
    TaskRepo.FieldsKeepDense(tasks, TaskRepo.SetDone(id, done, at));
    TaskRepo.MoveKeepsDense(marked, planId, t.sortOrder, DoneTarget(done, count));
    var after := AfterUpdateDone(tasks, planId, id, done, at);
    assert after[k].id == id && after[k].done == done;
  }
}
