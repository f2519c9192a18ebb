/**
 * PlanRepo: the statements and reads over the plans table, and what they do
 * to its sort_order partitions. A partition is the set of plans of one owner
 * and one type; within it the orders should be exactly 0..n-1.
 *
 * Every subquery of a statement reads the table as it was before the
 * statement, so the new table is a function of the old one.
 */
module PlanRepo {
  import opened Errors
  import opened Rows
  import opened SortOrder
  import opened Schema

  /** The body of a create or update request (PlanIn). */
  datatype PlanIn = PlanIn(id: Id, title: Option<string>, starts: Option<int>, ends: Option<int>)

  /** A plan as the SELECTs return it: the row, whether it has members, and its owner from the LEFT JOIN on users. */
  datatype PlanView = PlanView(plan: Plan, isShared: bool, owner: Option<User>)

  // ---------------------------------------------------------------- reads

  /** The orders of the partition (userId, t), in table order. */
  function Orders(plans: seq<Plan>, userId: Id, t: PlanType): seq<int>
  {
    PartitionOrders(plans, PartitionIs(userId, t), PlanMatches, PlanOrder)
  }

  /** Every (owner, type) partition holds the orders 0..n-1. */
  ghost predicate OrdersDense(plans: seq<Plan>)
  {
    forall u: Id, t: PlanType :: Dense(Orders(plans, u, t))
  }

  /** SELECT COUNT(*) FROM plans WHERE user_id = @userId and type = @type */
  function GetCount(plans: seq<Plan>, userId: Id, t: PlanType): (n: nat)
    ensures n <= |plans|
    ensures n == |Orders(plans, userId, t)|
  {
    Count(plans, PartitionIs(userId, t), PlanMatches)
  }

  /** EXISTS(SELECT 1 FROM plan_members WHERE plan_id = @planId) */
  function IsShared(members: seq<Member>, planId: Id): (r: bool)
    ensures r <==> exists i :: 0 <= i < |members| && members[i].planId == planId
  {
    First(members, MemberPlanIs(planId), MemberMatches).Some?
  }

  function View(s: State, p: Plan): PlanView
  {
    PlanView(p, IsShared(s.members, p.id), First(s.users, UserIdIs(p.userId), UserMatches))
  }

  /** GetOne: the plan with that id, or null. */
  function GetOne(s: State, id: Id): (r: Option<PlanView>)
    ensures r.None? <==> forall i :: 0 <= i < |s.plans| ==> s.plans[i].id != id
    ensures r.Some? ==> r.value.plan in s.plans && r.value.plan.id == id && r.value == View(s, r.value.plan)
  {
    match First(s.plans, PlanIdIs(id), PlanMatches)
    case None => None
    case Some(p) => Some(View(s, p))
  }

  function PlansOf(vs: seq<PlanView>): (r: seq<Plan>)
    ensures |r| == |vs| && forall i :: 0 <= i < |vs| ==> r[i] == vs[i].plan
  {
    seq(|vs|, i requires 0 <= i < |vs| => vs[i].plan)
  }

  function ViewAll(s: State, ps: seq<Plan>): (r: seq<PlanView>)
    ensures |r| == |ps| && forall i :: 0 <= i < |ps| ==> r[i] == View(s, ps[i])
  {
    seq(|ps|, i requires 0 <= i < |ps| => View(s, ps[i]))
  }

  /** GetMany: the plans of the partition (userId, t), ORDER BY sort_order DESC. */
  function GetMany(s: State, userId: Id, t: PlanType): (r: seq<PlanView>)
    ensures SortedDesc(PlansOf(r), PlanOrder)
    ensures multiset(PlansOf(r)) == multiset(Filter(s.plans, PartitionIs(userId, t), PlanMatches, true))
    ensures forall i :: 0 <= i < |r| ==> r[i] == View(s, r[i].plan)
  {
    var sorted := SortDesc(Filter(s.plans, PartitionIs(userId, t), PlanMatches, true), PlanOrder);
    var r := ViewAll(s, sorted);
    assert PlansOf(r) == sorted;
    r
  }

  /** The done_percent UpdateDonePercent computes: the plan's done tasks over all its tasks. */
  function DonePercent(tasks: seq<Task>, planId: Id): (r: Progress)
    ensures r.done <= r.total <= |tasks|
  {
    CountMonotone(tasks, DoneInPlan(planId), TaskPlanIs(planId), TaskMatches);
    Progress(Count(tasks, DoneInPlan(planId), TaskMatches), Count(tasks, TaskPlanIs(planId), TaskMatches))
  }

  // ---------------------------------------------------------------- statements

  /** The SET clauses of the UPDATE statements of PlanRepo; each names the rows it touches. */
  datatype PlanUpdate =
    | SetDetails(id: Id, title: Option<string>, starts: Option<int>, ends: Option<int>, at: nat)
    | SetDonePercent(id: Id, progress: Progress)
    | ShiftOrders(userId: Id, planType: PlanType, shift: Shift)
    | SetType(id: Id, newType: PlanType, order: int, at: nat)
    | SetOwner(from: Id, to: Id, offset: int, at: nat)

  /** One row after an UPDATE: the rows its WHERE clause selects get its SET clause. */
  function Updated(p: Plan, u: PlanUpdate): (r: Plan)
    ensures r.id == p.id
  {
    match u
    case SetDetails(id, title, starts, ends, at) =>
      if p.id == id then p.(title := title, starts := starts, ends := ends, updatedAt := Some(at)) else p
    case SetDonePercent(id, progress) =>
      if p.id == id then p.(donePercent := progress) else p
    case ShiftOrders(userId, t, s) =>
      if p.userId == userId && p.planType == t then p.(sortOrder := Shifted(p.sortOrder, s)) else p
    case SetType(id, t, order, at) =>
      if p.id == id then p.(planType := t, sortOrder := order, updatedAt := Some(at)) else p
    case SetOwner(from, to, offset, at) =>
      if p.userId == from then p.(userId := to, sortOrder := p.sortOrder + offset, updatedAt := Some(at)) else p
  }

  /** The row Create inserts. */
  function NewPlan(id: Id, userId: Id, plan: PlanIn, order: int, at: nat): Plan
  {
    Plan(id, userId, plan.title, Main, Open, order, plan.starts, plan.ends, Progress(0, 0), at, None)
  }

  /** RemoveFromOrder: the owner's plans of plan id's type whose order is above plan id's drop by one. */
  function Compacted(plans: seq<Plan>, userId: Id, id: Id): seq<Plan>
  {
    match First(plans, PlanIdIs(id), PlanMatches)
    case None => plans
    case Some(p) => UpdateAll(plans, ShiftOrders(userId, p.planType, Compact(p.sortOrder)), Updated)
  }

  /**
   * UpdateType as written: the new order is the number of userId's plans of
   * the target type, the retyped plan included when it already has that type.
   */
  function RetypedAsWritten(plans: seq<Plan>, userId: Id, id: Id, t: PlanType, at: nat): seq<Plan>
  {
    UpdateAll(plans, SetType(id, t, GetCount(plans, userId, t), at), Updated)
  }

  /** The number of userId's plans of type t other than plan id. */
  function OthersCount(plans: seq<Plan>, userId: Id, id: Id, t: PlanType): nat
  {
    GetCount(Filter(plans, PlanIdIs(id), PlanMatches, false), userId, t)
  }

  /** UpdateType, corrected: the new order counts the other plans of the target partition only. */
  function Retyped(plans: seq<Plan>, userId: Id, id: Id, t: PlanType, at: nat): seq<Plan>
  {
    UpdateAll(plans, SetType(id, t, OthersCount(plans, userId, id, t), at), Updated)
  }

  /** UpdateUserId: every plan of `from` goes to `to`, shifted by the number of all of `to`'s plans. */
  function Reassigned(plans: seq<Plan>, from: Id, to: Id, at: nat): seq<Plan>
  {
    UpdateAll(plans, SetOwner(from, to, Count(plans, OwnerIs(to), PlanMatches), at), Updated)
  }

  // ---------------------------------------------------------------- methods

  method Create(db: Db, userId: Id, plan: PlanIn) returns (id: Id)
    requires db.Valid()
    modifies db`plans, db`nextId, db`clock
    ensures db.Valid()
    ensures forall i :: 0 <= i < |old(db.plans)| ==> old(db.plans)[i].id != id
    ensures db.plans == old(db.plans) + [NewPlan(id, userId, plan, GetCount(old(db.plans), userId, Main), old(db.clock))]
    ensures db.Snapshot() == old(db.Snapshot()).(plans := db.plans)
    ensures db.nextId == old(db.nextId) + 1 && db.clock == old(db.clock) + 1
  {
    var order := GetCount(db.plans, userId, Main);
    var now;
    id, now := db.NewRow();
    KeyedAppend(db.plans, PlanKey, id, NewPlan(id, userId, plan, order, now));
    db.plans := db.plans + [NewPlan(id, userId, plan, order, now)];
  }

  method Update(db: Db, plan: PlanIn)
    requires db.Valid()
    modifies db`plans
    ensures db.Valid()
    ensures db.plans == UpdateAll(old(db.plans), SetDetails(plan.id, plan.title, plan.starts, plan.ends, db.clock), Updated)
  {
    db.plans := UpdateEach(db.plans, SetDetails(plan.id, plan.title, plan.starts, plan.ends, db.clock), Updated);
  }

  /** DELETE FROM plans WHERE id = @id; the plan's tasks and memberships go with it (ON DELETE CASCADE). */
  method Delete(db: Db, id: Id)
    requires db.Valid()
    modifies db`plans, db`tasks, db`members
    ensures db.Valid()
    ensures db.plans == Filter(old(db.plans), PlanIdIs(id), PlanMatches, false)
    ensures db.tasks == Filter(old(db.tasks), TaskPlanIs(id), TaskMatches, false)
    ensures db.members == Filter(old(db.members), MemberPlanIs(id), MemberMatches, false)
  {
    var rows, removed;
    rows, removed := DeleteWhere(db.plans, PlanIdIs(id), PlanMatches);
    KeyedFilter(db.plans, PlanKey, db.nextId, PlanIdIs(id), PlanMatches, false);
    db.SetPlans(rows);
    var tasks, gone := DeleteWhere(db.tasks, TaskPlanIs(id), TaskMatches);
    KeyedFilter(db.tasks, TaskKey, db.nextId, TaskPlanIs(id), TaskMatches, false);
    db.SetTasks(tasks);
    var members, left := DeleteWhere(db.members, MemberPlanIs(id), MemberMatches);
    db.SetMembers(members);
  }

  method UpdateDonePercent(db: Db, id: Id)
    requires db.Valid()
    modifies db`plans
    ensures db.Valid()
    ensures db.plans == UpdateAll(old(db.plans), SetDonePercent(id, DonePercent(db.tasks, id)), Updated)
    ensures db.Snapshot() == old(db.Snapshot()).(plans := db.plans)
  {
    db.plans := UpdateEach(db.plans, SetDonePercent(id, DonePercent(db.tasks, id)), Updated);
  }

  method RemoveFromOrder(db: Db, userId: Id, id: Id)
    requires db.Valid()
    modifies db`plans
    ensures db.Valid()
    ensures db.plans == Compacted(old(db.plans), userId, id)
  {
    match First(db.plans, PlanIdIs(id), PlanMatches)
    case None =>
    case Some(p) =>
      db.plans := UpdateEach(db.plans, ShiftOrders(userId, p.planType, Compact(p.sortOrder)), Updated);
  }

  method UpdateOrder(db: Db, userId: Id, t: PlanType, oldOrder: int, newOrder: int)
    requires db.Valid()
    modifies db`plans
    ensures db.Valid()
    ensures db.plans == UpdateAll(old(db.plans), ShiftOrders(userId, t, Move(oldOrder, newOrder)), Updated)
  {
    db.plans := UpdateEach(db.plans, ShiftOrders(userId, t, Move(oldOrder, newOrder)), Updated);
  }

  method UpdateType(db: Db, userId: Id, id: Id, t: PlanType)
    requires db.Valid()
    modifies db`plans
    ensures db.Valid()
    ensures db.plans == Retyped(old(db.plans), userId, id, t, db.clock)
  {
    db.plans := UpdateEach(db.plans, SetType(id, t, OthersCount(db.plans, userId, id, t), db.clock), Updated);
  }

  /** UpdateUserId: returns the number of plans moved. */
  method UpdateUserId(db: Db, from: Id, to: Id) returns (moved: nat)
    requires db.Valid()
    modifies db`plans
    ensures db.Valid()
    ensures moved == Count(old(db.plans), OwnerIs(from), PlanMatches)
    ensures db.plans == Reassigned(old(db.plans), from, to, db.clock)
  {
    moved := Count(db.plans, OwnerIs(from), PlanMatches);
    db.plans := UpdateEach(db.plans, SetOwner(from, to, Count(db.plans, OwnerIs(to), PlanMatches), db.clock), Updated);
  }

  // ---------------------------------------------------------------- properties

  /** In a keyed table the lookup by id finds the one row with that id. */
  lemma FindAt(plans: seq<Plan>, bound: nat, k: int)
    requires Keyed(plans, PlanKey, bound) && 0 <= k < |plans|
    ensures First(plans, PlanIdIs(plans[k].id), PlanMatches) == Some(plans[k])
  {
    var r := First(plans, PlanIdIs(plans[k].id), PlanMatches);
    assert PlanMatches(plans[k], PlanIdIs(plans[k].id));
    var j :| 0 <= j < |plans| && plans[j] == r.value;
    KeyedUnique(plans, PlanKey, bound, j, k);
  }

  /** Create's row takes the next order of the caller's Main partition, and every partition stays dense. */
  lemma CreateKeepsDense(plans: seq<Plan>, id: Id, userId: Id, plan: PlanIn, at: nat)
    requires OrdersDense(plans)
    ensures var p := NewPlan(id, userId, plan, GetCount(plans, userId, Main), at);
      OrdersDense(plans + [p]) && Orders(plans + [p], userId, Main) == Orders(plans, userId, Main) + [|Orders(plans, userId, Main)|]
  {
    var p := NewPlan(id, userId, plan, GetCount(plans, userId, Main), at);
    forall u: Id, t: PlanType
      ensures Dense(Orders(plans + [p], u, t))
    {
      assert Dense(Orders(plans, u, t));
      AppendKeepsDense(plans, p, PartitionIs(u, t), PlanMatches, PlanOrder);
    }
    PartitionOrdersConcat(plans, [p], PartitionIs(userId, Main), PlanMatches, PlanOrder);
    PartitionOrdersSingle(p, PartitionIs(userId, Main), PlanMatches, PlanOrder);
  }

  /** Update and UpdateDonePercent leave every partition's orders as they were. */
  lemma DetailsKeepOrders(plans: seq<Plan>, u: PlanUpdate, userId: Id, t: PlanType)
    requires u.SetDetails? || u.SetDonePercent?
    ensures Orders(UpdateAll(plans, u, Updated), userId, t) == Orders(plans, userId, t)
  {
    PartitionUntouched(plans, UpdateAll(plans, u, Updated), PartitionIs(userId, t), PlanMatches, PlanOrder);
  }

  /**
   * RemoveFromOrder on plan k decrements exactly the owner's plans of plan
   * k's type whose order is strictly above plan k's; plan k keeps its order.
   */
  lemma CompactedRows(plans: seq<Plan>, bound: nat, userId: Id, k: int)
    requires Keyed(plans, PlanKey, bound) && 0 <= k < |plans|
    ensures var c := Compacted(plans, userId, plans[k].id);
      && |c| == |plans|
      && c[k] == plans[k]
      && forall i :: 0 <= i < |plans| ==>
           c[i] == if plans[i].userId == userId && plans[i].planType == plans[k].planType && plans[i].sortOrder > plans[k].sortOrder
                   then plans[i].(sortOrder := plans[i].sortOrder - 1)
                   else plans[i]
  {
    FindAt(plans, bound, k);
  }

  /** UpdateOrder with oldOrder == newOrder changes nothing. */
  lemma MoveToSelfIsIdentity(plans: seq<Plan>, userId: Id, t: PlanType, order: int)
    ensures UpdateAll(plans, ShiftOrders(userId, t, Move(order, order)), Updated) == plans
  {
    var after := UpdateAll(plans, ShiftOrders(userId, t, Move(order, order)), Updated);
    forall i | 0 <= i < |plans|
      ensures after[i] == plans[i]
    {
      assert Shifted(plans[i].sortOrder, Move(order, order)) == plans[i].sortOrder;
    }
  }

  /** UpdateOrder's CASE, with both indices naming a position of (userId, t), keeps partition (u, t') dense. */
  lemma MovePartitionDense(plans: seq<Plan>, userId: Id, t: PlanType, oldOrder: int, newOrder: int, u: Id, t': PlanType)
    requires Dense(Orders(plans, u, t'))
    requires u == userId && t' == t ==> !ReorderRejected(GetCount(plans, userId, t), oldOrder, newOrder)
    ensures Dense(Orders(UpdateAll(plans, ShiftOrders(userId, t, Move(oldOrder, newOrder)), Updated), u, t'))
  {
    var after := UpdateAll(plans, ShiftOrders(userId, t, Move(oldOrder, newOrder)), Updated);
    if u == userId && t' == t {
      PartitionShifted(plans, after, PartitionIs(u, t'), PlanMatches, PlanOrder, Move(oldOrder, newOrder));
      GuardedMoveKeepsDense(Orders(plans, u, t'), oldOrder, newOrder);
    } else {
      PartitionUntouched(plans, after, PartitionIs(u, t'), PlanMatches, PlanOrder);
    }
  }

  /**
   * UpdateOrder with both indices naming a position of the partition keeps
   * every partition dense, and the plan at oldOrder lands on newOrder.
   */
  lemma MoveKeepsDense(plans: seq<Plan>, userId: Id, t: PlanType, oldOrder: int, newOrder: int)
    requires OrdersDense(plans)
    requires !ReorderRejected(GetCount(plans, userId, t), oldOrder, newOrder)
    ensures var after := UpdateAll(plans, ShiftOrders(userId, t, Move(oldOrder, newOrder)), Updated);
      && OrdersDense(after)
      && forall i :: 0 <= i < |plans| && plans[i].userId == userId && plans[i].planType == t && plans[i].sortOrder == oldOrder ==>
           after[i].sortOrder == newOrder
  {
    forall u: Id, t': PlanType
      ensures Dense(Orders(UpdateAll(plans, ShiftOrders(userId, t, Move(oldOrder, newOrder)), Updated), u, t'))
    {
      assert Dense(Orders(plans, u, t'));
      MovePartitionDense(plans, userId, t, oldOrder, newOrder, u, t');
    }
  }

  /** The UPDATEs never change a plan's id, so the table stays keyed. */
  lemma KeyedUpdated(plans: seq<Plan>, bound: nat, u: PlanUpdate)
    requires Keyed(plans, PlanKey, bound)
    ensures Keyed(UpdateAll(plans, u, Updated), PlanKey, bound)
  {
  }

  /** In a keyed table, RemoveFromOrder on the id of plan k compacts plan k's partition. */
  lemma CompactedAt(plans: seq<Plan>, bound: nat, userId: Id, k: int)
    requires Keyed(plans, PlanKey, bound) && 0 <= k < |plans|
    ensures Compacted(plans, userId, plans[k].id)
         == UpdateAll(plans, ShiftOrders(userId, plans[k].planType, Compact(plans[k].sortOrder)), Updated)
  {
    FindAt(plans, bound, k);
  }

  /** In a keyed table, deleting by the id of row k removes row k and nothing else. */
  lemma WithoutAt(plans: seq<Plan>, bound: nat, k: int)
    requires Keyed(plans, PlanKey, bound) && 0 <= k < |plans|
    ensures Filter(plans, PlanIdIs(plans[k].id), PlanMatches, false) == plans[..k] + plans[k + 1..]
  {
    FilterOnly(plans, PlanIdIs(plans[k].id), PlanMatches, k);
  }

  /** The corrected count leaves plan k out exactly when plan k is in the counted partition. */
  lemma OthersCountAt(plans: seq<Plan>, bound: nat, k: int, userId: Id, t: PlanType)
    requires Keyed(plans, PlanKey, bound) && 0 <= k < |plans|
    ensures OthersCount(plans, userId, plans[k].id, t)
         == GetCount(plans, userId, t) - (if plans[k].userId == userId && plans[k].planType == t then 1 else 0)
  {
    WithoutAt(plans, bound, k);
    CountWithoutAt(plans, k, PartitionIs(userId, t), PlanMatches);
  }

  /** The per-row facts RemoveRowKeepsDense needs, for the compaction of plan k's partition. */
  lemma CompactedRowsMatch(plans: seq<Plan>, k: int, w: PlanWhere)
    requires 0 <= k < |plans| && w.PartitionIs?
    ensures var p := plans[k];
      var c := UpdateAll(plans, ShiftOrders(p.userId, p.planType, Compact(p.sortOrder)), Updated);
      && c[k] == p
      && (forall i :: 0 <= i < |plans| && i != k ==> PlanMatches(c[i], w) == PlanMatches(plans[i], w))
      && (forall i :: 0 <= i < |plans| && i != k && PlanMatches(plans[i], w) ==>
            PlanOrder(c[i]) == if PlanMatches(plans[k], w) then Shifted(PlanOrder(plans[i]), Compact(PlanOrder(plans[k]))) else PlanOrder(plans[i]))
  {
  }

  lemma DeletePartitionDense(plans: seq<Plan>, bound: nat, k: int, u: Id, t: PlanType)
    requires Keyed(plans, PlanKey, bound) && 0 <= k < |plans|
    requires Dense(Orders(plans, u, t))
    ensures var p := plans[k];
      Dense(Orders(Filter(Compacted(plans, p.userId, p.id), PlanIdIs(p.id), PlanMatches, false), u, t))
  {
    var p := plans[k];
    var c := UpdateAll(plans, ShiftOrders(p.userId, p.planType, Compact(p.sortOrder)), Updated);
    CompactedAt(plans, bound, p.userId, k);
    KeyedUpdated(plans, bound, ShiftOrders(p.userId, p.planType, Compact(p.sortOrder)));
    WithoutAt(c, bound, k);
    CompactedRowsMatch(plans, k, PartitionIs(u, t));
    RemoveRowKeepsDense(plans, c, k, PartitionIs(u, t), PlanMatches, PlanOrder);
  }

  /**
   * RemoveFromOrder then Delete of plan k (PlanService.Delete) keeps every
   * partition dense; plan k's partition loses one row.
   */
  lemma DeleteKeepsDense(plans: seq<Plan>, bound: nat, k: int)
    requires Keyed(plans, PlanKey, bound) && OrdersDense(plans) && 0 <= k < |plans|
    ensures var p := plans[k];
      OrdersDense(Filter(Compacted(plans, p.userId, p.id), PlanIdIs(p.id), PlanMatches, false))
  {
    var p := plans[k];
    forall u: Id, t: PlanType
      ensures Dense(Orders(Filter(Compacted(plans, p.userId, p.id), PlanIdIs(p.id), PlanMatches, false), u, t))
    {
      assert Dense(Orders(plans, u, t));
      DeletePartitionDense(plans, bound, k, u, t);
    }
  }

  /** In a keyed table, UpdateType of the id of row k changes row k only. */
  lemma RetypedAt(rows: seq<Plan>, bound: nat, k: int, userId: Id, t: PlanType, at: nat)
    requires Keyed(rows, PlanKey, bound) && 0 <= k < |rows|
    ensures var r := Retyped(rows, userId, rows[k].id, t, at);
      && |r| == |rows|
      && (forall i :: 0 <= i < |rows| && i != k ==> r[i] == rows[i])
      && r[k] == rows[k].(planType := t, sortOrder := OthersCount(rows, userId, rows[k].id, t), updatedAt := Some(at))
      && r[..k] + r[k + 1..] == rows[..k] + rows[k + 1..]
  {
    var r := Retyped(rows, userId, rows[k].id, t, at);
    forall i | 0 <= i < |rows| && i != k
      ensures r[i] == rows[i]
    {
      assert rows[i].id != rows[k].id;
    }
    assert r[..k] == rows[..k];
    assert r[k + 1..] == rows[k + 1..];
  }

  /** The corrected UpdateType puts row k one past the other rows of the target partition. */
  lemma RetypedOrderAt(rows: seq<Plan>, bound: nat, k: int, userId: Id, t: PlanType, at: nat)
    requires Keyed(rows, PlanKey, bound) && 0 <= k < |rows|
    ensures var r := Retyped(rows, userId, rows[k].id, t, at);
      r[k].sortOrder == Count(r[..k] + r[k + 1..], PartitionIs(userId, t), PlanMatches)
  {
    RetypedAt(rows, bound, k, userId, t, at);
    WithoutAt(rows, bound, k);
  }

  /** The per-row facts ReplaceRowKeepsDense needs, for RemoveFromOrder then UpdateType of plan k. */
  lemma RetypedRowsMatch(plans: seq<Plan>, bound: nat, k: int, t: PlanType, at: nat, w: PlanWhere)
    requires Keyed(plans, PlanKey, bound) && 0 <= k < |plans| && w.PartitionIs?
    ensures var p := plans[k];
      var c := UpdateAll(plans, ShiftOrders(p.userId, p.planType, Compact(p.sortOrder)), Updated);
      var r := Retyped(c, p.userId, p.id, t, at);
      && |r| == |plans|
      && (forall i :: 0 <= i < |plans| && i != k ==> PlanMatches(r[i], w) == PlanMatches(plans[i], w))
      && (forall i :: 0 <= i < |plans| && i != k && PlanMatches(plans[i], w) ==>
            PlanOrder(r[i]) == if PlanMatches(plans[k], w) then Shifted(PlanOrder(plans[i]), Compact(PlanOrder(plans[k]))) else PlanOrder(plans[i]))
      && (PlanMatches(r[k], w) ==> PlanOrder(r[k]) == Count(r[..k] + r[k + 1..], w, PlanMatches))
  {
    var p := plans[k];
    var c := UpdateAll(plans, ShiftOrders(p.userId, p.planType, Compact(p.sortOrder)), Updated);
    KeyedUpdated(plans, bound, ShiftOrders(p.userId, p.planType, Compact(p.sortOrder)));
    RetypedAt(c, bound, k, p.userId, t, at);
    RetypedOrderAt(c, bound, k, p.userId, t, at);
    CompactedRowsMatch(plans, k, w);
    var r := Retyped(c, p.userId, p.id, t, at);
    assert r[k].userId == p.userId && r[k].planType == t;
    if PlanMatches(r[k], w) {
      assert w == PartitionIs(p.userId, t);
    }
  }

  lemma RetypePartitionDense(plans: seq<Plan>, bound: nat, k: int, t: PlanType, at: nat, u: Id, t': PlanType)
    requires Keyed(plans, PlanKey, bound) && 0 <= k < |plans|
    requires Dense(Orders(plans, u, t'))
    ensures var p := plans[k];
      Dense(Orders(Retyped(Compacted(plans, p.userId, p.id), p.userId, p.id, t, at), u, t'))
  {
    var p := plans[k];
    var c := UpdateAll(plans, ShiftOrders(p.userId, p.planType, Compact(p.sortOrder)), Updated);
    assert Compacted(plans, p.userId, p.id) == c by {
      CompactedAt(plans, bound, p.userId, k);
    }
    RetypedRowsMatch(plans, bound, k, t, at, PartitionIs(u, t'));
    ReplaceRowKeepsDense(plans, Retyped(c, p.userId, p.id, t, at), k, PartitionIs(u, t'), PlanMatches, PlanOrder);
  }

  /**
   * RemoveFromOrder then the corrected UpdateType of plan k
   * (PlanService.UpdateType) keeps every partition dense: the old partition
   * loses plan k and the new one gains it at its end.
   */
  lemma RetypeKeepsDense(plans: seq<Plan>, bound: nat, k: int, t: PlanType, at: nat)
    requires Keyed(plans, PlanKey, bound) && OrdersDense(plans) && 0 <= k < |plans|
    ensures var p := plans[k];
      OrdersDense(Retyped(Compacted(plans, p.userId, p.id), p.userId, p.id, t, at))
  {
    var p := plans[k];
    forall u: Id, t': PlanType
      ensures Dense(Orders(Retyped(Compacted(plans, p.userId, p.id), p.userId, p.id, t, at), u, t'))
    {
      assert Dense(Orders(plans, u, t'));
      RetypePartitionDense(plans, bound, k, t, at, u, t');
    }
  }

  /**
   * The correction only matters when the plan already has the target type:
   * otherwise the other plans of the target partition are all of them.
   */
  lemma RetypeAgreesOnTypeChange(plans: seq<Plan>, bound: nat, k: int, t: PlanType, at: nat)
    requires Keyed(plans, PlanKey, bound) && 0 <= k < |plans|
    requires plans[k].planType != t
    ensures Retyped(plans, plans[k].userId, plans[k].id, t, at) == RetypedAsWritten(plans, plans[k].userId, plans[k].id, t, at)
  {
    OthersCountAt(plans, bound, k, plans[k].userId, t);
  }

  /**
   * The written UpdateType leaves a gap when the plan already has the target
   * type: the only Main plan, at order 0, retyped to Main lands on 1.
   */
  lemma RetypeAsWrittenLeavesGap()
    ensures var p := Plan(1, 1, None, Main, Open, 0, None, None, Progress(0, 0), 0, None);
      && OrdersDense([p])
      && !Dense(Orders(RetypedAsWritten(Compacted([p], 1, 1), 1, 1, Main, 0), 1, Main))
  {
    var p := Plan(1, 1, None, Main, Open, 0, None, None, Progress(0, 0), 0, None);
    forall u: Id, t: PlanType
      ensures Dense(Orders([p], u, t))
    {
      PartitionOrdersSingle(p, PartitionIs(u, t), PlanMatches, PlanOrder);
    }
    assert Compacted([p], 1, 1) == [p];
    assert GetCount([p], 1, Main) == 1 by {
      PartitionOrdersSingle(p, PartitionIs(1, Main), PlanMatches, PlanOrder);
    }
    var r := RetypedAsWritten([p], 1, 1, Main, 0);
    assert r == [r[0]];
    PartitionOrdersSingle(r[0], PartitionIs(1, Main), PlanMatches, PlanOrder);
    var os := Orders(RetypedAsWritten(Compacted([p], 1, 1), 1, 1, Main, 0), 1, Main);
    assert os == Orders(r, 1, Main) == [1];
    assert !(0 <= os[0] < |os|);
  }

  /**
   * UpdateUserId moves every plan of `from` to `to`, adding the number of
   * all of `to`'s plans to its order; the other plans do not change.
   */
  lemma ReassignedRows(plans: seq<Plan>, from: Id, to: Id, at: nat)
    ensures var r := Reassigned(plans, from, to, at);
      && |r| == |plans|
      && forall i :: 0 <= i < |plans| ==>
           if plans[i].userId == from
           then r[i].userId == to && r[i].sortOrder == plans[i].sortOrder + Count(plans, OwnerIs(to), PlanMatches)
                && r[i].planType == plans[i].planType && r[i].title == plans[i].title
           else r[i] == plans[i]
  {
  }

  /** The moved plans keep their relative order. */
  lemma ReassignKeepsRelativeOrder(plans: seq<Plan>, from: Id, to: Id, at: nat, i: int, j: int)
    requires 0 <= i < |plans| && 0 <= j < |plans|
    requires plans[i].userId == from && plans[j].userId == from
    ensures var r := Reassigned(plans, from, to, at);
      plans[i].sortOrder < plans[j].sortOrder <==> r[i].sortOrder < r[j].sortOrder
  {
  }

  /**
   * With dense partitions, every moved plan lands above every plan `to`
   * already had, of any type: the merge never makes two of `to`'s plans
   * share an order.
   */
  lemma ReassignLandsAbove(plans: seq<Plan>, from: Id, to: Id, at: nat, i: int, j: int)
    requires OrdersDense(plans) && from != to
    requires 0 <= i < |plans| && 0 <= j < |plans|
    requires plans[i].userId == from && plans[j].userId == to
    ensures var r := Reassigned(plans, from, to, at);
      r[i].userId == r[j].userId == to && r[i].sortOrder > r[j].sortOrder
  {
    var pi, pj := plans[i], plans[j];
    OrderInPartition(plans, i, PartitionIs(from, pi.planType), PlanMatches, PlanOrder);
    OrderInPartition(plans, j, PartitionIs(to, pj.planType), PlanMatches, PlanOrder);
    assert Dense(Orders(plans, from, pi.planType));
    assert Dense(Orders(plans, to, pj.planType));
    assert 0 <= pi.sortOrder;
    assert pj.sortOrder < GetCount(plans, to, pj.planType);
    CountMonotone(plans, PartitionIs(to, pj.planType), OwnerIs(to), PlanMatches);
  }

  /**
   * Per-type density is not kept by UpdateUserId: `from` (user 2) has a Main
   * plan at 0, `to` (user 1) a Main and an Archived plan at 0; after the
   * merge user 1's Main partition is {2, 0}.
   */
  lemma ReassignBreaksTypeDensity()
    ensures var plans := MergeExample();
      && OrdersDense(plans)
      && !Dense(Orders(Reassigned(plans, 2, 1, 3), 1, Main))
  {
    ExampleDense();
    ExampleReassigned();
    var os := Orders(Reassigned(MergeExample(), 2, 1, 3), 1, Main);
    assert !(0 <= os[0] < |os|);
  }

  /** The table of ReassignBreaksTypeDensity: user 2 owns one Main plan, user 1 a Main and an Archived plan, each at order 0. */
  function MergeExample(): (plans: seq<Plan>)
    ensures |plans| == 3
  {
    [Plan(1, 2, None, Main, Open, 0, None, None, Progress(0, 0), 0, None),
     Plan(2, 1, None, Main, Open, 0, None, None, Progress(0, 0), 1, None),
     Plan(3, 1, None, Archived, Open, 0, None, None, Progress(0, 0), 2, None)]
  }

  lemma ExampleDense()
    ensures OrdersDense(MergeExample())
  {
    var plans := MergeExample();
    forall u: Id, t: PlanType
      ensures Dense(Orders(plans, u, t))
    {
      PartitionOrdersThree(plans, PartitionIs(u, t));
    }
  }

  lemma ExampleReassigned()
    ensures Orders(Reassigned(MergeExample(), 2, 1, 3), 1, Main) == [2, 0]
  {
    var plans := MergeExample();
    PartitionOrdersThree(plans, OwnerIs(1));
    assert Count(plans, OwnerIs(1), PlanMatches) == 2;
    var r := Reassigned(plans, 2, 1, 3);
    PartitionOrdersThree(r, PartitionIs(1, Main));
  }

  /** The partition orders of a three-row table, row by row. */
  lemma PartitionOrdersThree(rows: seq<Plan>, w: PlanWhere)
    requires |rows| == 3
    ensures PartitionOrders(rows, w, PlanMatches, PlanOrder)
         == (if PlanMatches(rows[0], w) then [rows[0].sortOrder] else [])
          + (if PlanMatches(rows[1], w) then [rows[1].sortOrder] else [])
          + (if PlanMatches(rows[2], w) then [rows[2].sortOrder] else [])
  {
    assert rows == [rows[0]] + [rows[1]] + [rows[2]];
    PartitionOrdersConcat([rows[0]] + [rows[1]], [rows[2]], w, PlanMatches, PlanOrder);
    PartitionOrdersConcat([rows[0]], [rows[1]], w, PlanMatches, PlanOrder);
    PartitionOrdersSingle(rows[0], w, PlanMatches, PlanOrder);
    PartitionOrdersSingle(rows[1], w, PlanMatches, PlanOrder);
    PartitionOrdersSingle(rows[2], w, PlanMatches, PlanOrder);
  }
}
