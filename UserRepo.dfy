/**
 * UserRepo: the users table. A user without an email is an anonymous
 * account created with its first device; VerifyOtp gives it an email or
 * merges it into the account that has one.
 *
 * Deleting a user removes what the foreign keys hang on it: its plans with
 * their tasks and memberships, its own memberships and its devices.
 */
module UserRepo {
  import opened Errors
  import opened Rows
  import opened SortOrder
  import opened Schema
  import PlanRepo
  import TaskRepo

  /** The SET clauses of the UPDATE statements of UserRepo. */
  datatype UserUpdate =
    | SetName(id: Id, name: string, at: nat)
    | SetEmail(id: Id, email: string, at: nat)

  function Updated(u: User, s: UserUpdate): (r: User)
    ensures r.id == u.id && r.createdAt == u.createdAt
  {
    match s
    case SetName(id, name, at) => if u.id == id then u.(name := Some(name), updatedAt := Some(at)) else u
    case SetEmail(id, email, at) => if u.id == id then u.(email := Some(email), updatedAt := Some(at)) else u
  }

  // ---------------------------------------------------------------- reads

  /** GetOne(email): the user whose email is `email`, or null. */
  function GetOneByEmail(users: seq<User>, email: string): (r: Option<User>)
    ensures r.Some? ==> r.value in users && r.value.email == Some(email)
    ensures r.None? <==> forall i :: 0 <= i < |users| ==> users[i].email != Some(email)
  {
    First(users, UserEmailIs(email), UserMatches)
  }

  /** GetOne(id): the user with that id, or null. */
  function GetOne(users: seq<User>, id: Id): (r: Option<User>)
    ensures r.Some? ==> r.value in users && r.value.id == id
    ensures r.None? <==> forall i :: 0 <= i < |users| ==> users[i].id != id
  {
    First(users, UserIdIs(id), UserMatches)
  }

  /** The ids of userId's plans: the plans a user delete takes with it. */
  function OwnedPlanIds(plans: seq<Plan>, userId: Id): (ids: set<Id>)
    ensures forall p :: p in plans && p.userId == userId ==> p.id in ids
    ensures forall id :: id in ids ==> exists p :: p in plans && p.userId == userId && p.id == id
  {
    set p | p in plans && p.userId == userId :: p.id
  }

  // ---------------------------------------------------------------- statements

  /** INSERT INTO users (id, created_at): an anonymous user. */
  method Create(db: Db) returns (id: Id)
    requires db.Valid()
    modifies db`users, db`nextId, db`clock
    ensures db.Valid()
    ensures forall i :: 0 <= i < |old(db.users)| ==> old(db.users)[i].id != id
    ensures db.users == old(db.users) + [User(id, None, None, old(db.clock), None)]
    ensures db.Snapshot() == old(db.Snapshot()).(users := db.users)
    ensures db.nextId == old(db.nextId) + 1 && db.clock == old(db.clock) + 1
  {
    var now;
    id, now := db.NewRow();
    KeyedAppend(db.users, UserKey, id, User(id, None, None, now, None));
    db.SetUsers(db.users + [User(id, None, None, now, None)]);
  }

  method UpdateName(db: Db, id: Id, name: string)
    requires db.Valid()
    modifies db`users
    ensures db.Valid()
    ensures db.users == UpdateAll(old(db.users), SetName(id, name, db.clock), Updated)
  {
    var rows := UpdateEach(db.users, SetName(id, name, db.clock), Updated);
    db.SetUsers(rows);
  }

  method UpdateEmail(db: Db, id: Id, email: string)
    requires db.Valid()
    modifies db`users
    ensures db.Valid()
    ensures db.users == UpdateAll(old(db.users), SetEmail(id, email, db.clock), Updated)
    ensures db.Snapshot() == old(db.Snapshot()).(users := db.users)
  {
    var rows := UpdateEach(db.users, SetEmail(id, email, db.clock), Updated);
    db.SetUsers(rows);
  }

  /** The part of the user delete cascade that follows the plans: their rows, their tasks and their memberships. */
  method DeletePlansOf(db: Db, id: Id)
    requires db.Valid()
    modifies db`plans, db`tasks, db`members
    ensures db.Valid()
    ensures db.plans == Filter(old(db.plans), OwnerIs(id), PlanMatches, false)
    ensures db.tasks == Filter(old(db.tasks), TaskPlanAmong(OwnedPlanIds(old(db.plans), id)), TaskMatches, false)
    ensures db.members == Filter(old(db.members), MemberPlanAmong(OwnedPlanIds(old(db.plans), id)), MemberMatches, false)
  {
    var ids := OwnedPlanIds(db.plans, id);
    var plans, n1 := DeleteWhere(db.plans, OwnerIs(id), PlanMatches);
    KeyedFilter(db.plans, PlanKey, db.nextId, OwnerIs(id), PlanMatches, false);
    db.SetPlans(plans);

    var tasks, n2 := DeleteWhere(db.tasks, TaskPlanAmong(ids), TaskMatches);
    KeyedFilter(db.tasks, TaskKey, db.nextId, TaskPlanAmong(ids), TaskMatches, false);
    db.SetTasks(tasks);

    var members, n3 := DeleteWhere(db.members, MemberPlanAmong(ids), MemberMatches);
    db.SetMembers(members);
  }

  /** DELETE FROM users WHERE id = @id, with its cascade; returns the users row count, 0 or 1. */
  method Delete(db: Db, id: Id) returns (removed: nat)
    requires db.Valid()
    modifies db`users, db`plans, db`tasks, db`members, db`devices
    ensures db.Valid()
    ensures removed == Count(old(db.users), UserIdIs(id), UserMatches) && removed <= 1
    ensures db.users == Filter(old(db.users), UserIdIs(id), UserMatches, false)
    ensures db.plans == Filter(old(db.plans), OwnerIs(id), PlanMatches, false)
    ensures db.tasks == Filter(old(db.tasks), TaskPlanAmong(OwnedPlanIds(old(db.plans), id)), TaskMatches, false)
    ensures db.members == Filter(Filter(old(db.members), MemberPlanAmong(OwnedPlanIds(old(db.plans), id)), MemberMatches, false),
                                 MemberUserIs(id), MemberMatches, false)
    ensures db.devices == Filter(old(db.devices), DeviceOwnerIs(id), DeviceMatches, false)
    ensures db.emails == old(db.emails)
  {
    removed := DeleteRow(db, id);
    DeleteCascade(db, id);
  }

  /** The ON DELETE CASCADE rows of a deleted user: its plans (with their tasks and members), its memberships and its devices. */
  method DeleteCascade(db: Db, id: Id)
    requires db.Valid()
    modifies db`plans, db`tasks, db`members, db`devices
    ensures db.Valid()
    ensures db.plans == Filter(old(db.plans), OwnerIs(id), PlanMatches, false)
    ensures db.tasks == Filter(old(db.tasks), TaskPlanAmong(OwnedPlanIds(old(db.plans), id)), TaskMatches, false)
    ensures db.members == Filter(Filter(old(db.members), MemberPlanAmong(OwnedPlanIds(old(db.plans), id)), MemberMatches, false),
                                 MemberUserIs(id), MemberMatches, false)
    ensures db.devices == Filter(old(db.devices), DeviceOwnerIs(id), DeviceMatches, false)
    ensures db.users == old(db.users)
  {
    DeletePlansOf(db, id);
    DeleteMembershipsOf(db, id);
    DeleteDevicesOf(db, id);
  }

  /** The users row itself. */
  method DeleteRow(db: Db, id: Id) returns (removed: nat)
    requires db.Valid()
    modifies db`users
    ensures db.Valid()
    ensures removed == Count(old(db.users), UserIdIs(id), UserMatches) && removed <= 1
    ensures db.users == Filter(old(db.users), UserIdIs(id), UserMatches, false)
  {
    var users;
    users, removed := DeleteWhere(db.users, UserIdIs(id), UserMatches);
    KeyedFilter(db.users, UserKey, db.nextId, UserIdIs(id), UserMatches, false);
    KeyedAtMostOne(db.users, UserKey, db.nextId, UserIdIs(id), UserMatches, id);
    db.SetUsers(users);
  }

  /** The cascade to plan_members: the user's memberships in other users' plans. */
  method DeleteMembershipsOf(db: Db, id: Id)
    requires db.Valid()
    modifies db`members
    ensures db.Valid()
    ensures db.members == Filter(old(db.members), MemberUserIs(id), MemberMatches, false)
  {
    var members, n := DeleteWhere(db.members, MemberUserIs(id), MemberMatches);
    db.SetMembers(members);
  }

  /** The cascade to devices: every device signed in as the user. */
  method DeleteDevicesOf(db: Db, id: Id)
    requires db.Valid()
    modifies db`devices
    ensures db.Valid()
    ensures db.devices == Filter(old(db.devices), DeviceOwnerIs(id), DeviceMatches, false)
  {
    var devices, m := DeleteWhere(db.devices, DeviceOwnerIs(id), DeviceMatches);
    KeyedFilter(db.devices, DeviceKey, db.nextId, DeviceOwnerIs(id), DeviceMatches, false);
    db.SetDevices(devices);
  }

  // ---------------------------------------------------------------- properties

  /** In a keyed table, UpdateName and UpdateEmail of the id of row k change row k and no other. */
  lemma UpdatedAt(users: seq<User>, bound: nat, k: int, s: UserUpdate)
    requires Keyed(users, UserKey, bound) && 0 <= k < |users| && s.id == users[k].id
    ensures var r := UpdateAll(users, s, Updated);
      && (forall i :: 0 <= i < |users| && i != k ==> r[i] == users[i])
      && (s.SetName? ==> r[k] == users[k].(name := Some(s.name), updatedAt := Some(s.at)))
      && (s.SetEmail? ==> r[k] == users[k].(email := Some(s.email), updatedAt := Some(s.at)))
  {
    forall i | 0 <= i < |users| && i != k
      ensures users[i].id != s.id
    {
      assert UserKey(users[i]) != UserKey(users[k]);
    }
  }

  /** After UpdateEmail of an existing user, looking the email up finds a user with it. */
  lemma UpdateEmailFindable(users: seq<User>, bound: nat, k: int, email: string, at: nat)
    requires Keyed(users, UserKey, bound) && 0 <= k < |users|
    ensures var r := UpdateAll(users, SetEmail(users[k].id, email, at), Updated);
      GetOneByEmail(r, email).Some?
  {
    var r := UpdateAll(users, SetEmail(users[k].id, email, at), Updated);
    assert UserMatches(r[k], UserEmailIs(email));
  }

  /**
   * No two users hold the same email. The lookup by email reads a single
   * row; no constraint on the users table enforces this, the login step
   * does by giving an email only to a caller when nobody holds it. The
   * model keeps this outside Db.Valid() and proves that deleting a user
   * and logging in preserve it.
   */
  ghost predicate EmailsUnique(users: seq<User>)
  {
    forall i, j :: 0 <= i < |users| && 0 <= j < |users| && i != j && users[i].email.Some? ==> users[i].email != users[j].email
  }

  /** With unique emails the first match is the only match: the lookup finds exactly the user holding the email. */
  lemma GetOneByEmailIsSingle(users: seq<User>, k: int)
    requires EmailsUnique(users) && 0 <= k < |users| && users[k].email.Some?
    ensures GetOneByEmail(users, users[k].email.value) == Some(users[k])
  {
    var r := GetOneByEmail(users, users[k].email.value);
    assert UserMatches(users[k], UserEmailIs(users[k].email.value));
    var j :| 0 <= j < |users| && users[j] == r.value;
    assert j == k || users[j].email != users[k].email;
  }

  /** Delete keeps emails unique: the rows that stay are rows that were there, each with its own id. */
  lemma DeleteKeepsEmailsUnique(users: seq<User>, bound: nat, id: Id)
    requires Keyed(users, UserKey, bound) && EmailsUnique(users)
    ensures EmailsUnique(Filter(users, UserIdIs(id), UserMatches, false))
  {
    var r := Filter(users, UserIdIs(id), UserMatches, false);
    KeyedFilter(users, UserKey, bound, UserIdIs(id), UserMatches, false);
    forall i, j | 0 <= i < |r| && 0 <= j < |r| && i != j && r[i].email.Some?
      ensures r[i].email != r[j].email
    {
      if r[i].id == r[j].id {
        KeyedUnique(r, UserKey, bound, i, j);
      }
      var p :| 0 <= p < |users| && users[p] == r[i];
      var q :| 0 <= q < |users| && users[q] == r[j];
    }
  }

  /**
   * Deleting a user's plans removes whole partitions: every other owner's
   * partitions are as they were, so all stay dense, and the user has none left.
   */
  lemma DeleteKeepsPlansDense(plans: seq<Plan>, id: Id)
    requires PlanRepo.OrdersDense(plans)
    ensures var r := Filter(plans, OwnerIs(id), PlanMatches, false);
      && PlanRepo.OrdersDense(r)
      && (forall t: PlanType :: PlanRepo.Orders(r, id, t) == [])
      && (forall u: Id, t: PlanType :: u != id ==> PlanRepo.Orders(r, u, t) == PlanRepo.Orders(plans, u, t))
  {
    var r := Filter(plans, OwnerIs(id), PlanMatches, false);
    forall u: Id, t: PlanType
      ensures PlanRepo.Orders(r, u, t) == if u == id then [] else PlanRepo.Orders(plans, u, t)
    {
      if u == id {
        PartitionOrdersEmptied(plans, OwnerIs(id), PartitionIs(u, t), PlanMatches, PlanOrder);
      } else {
        PartitionOrdersWithout(plans, OwnerIs(id), PartitionIs(u, t), PlanMatches, PlanOrder);
      }
    }
    forall u: Id, t: PlanType
      ensures Dense(PlanRepo.Orders(r, u, t))
    {
      assert Dense(PlanRepo.Orders(plans, u, t));
    }
  }

  /** Deleting the tasks of a set of plans keeps every plan's tasks dense and empties those plans. */
  lemma DeleteKeepsTasksDense(tasks: seq<Task>, ids: set<Id>)
    requires TaskRepo.OrdersDense(tasks)
    ensures var r := Filter(tasks, TaskPlanAmong(ids), TaskMatches, false);
      && TaskRepo.OrdersDense(r)
      && (forall p :: p in ids ==> TaskRepo.Orders(r, p) == [])
      && (forall p :: p !in ids ==> TaskRepo.Orders(r, p) == TaskRepo.Orders(tasks, p))
  {
    var r := Filter(tasks, TaskPlanAmong(ids), TaskMatches, false);
    forall p: Id
      ensures TaskRepo.Orders(r, p) == if p in ids then [] else TaskRepo.Orders(tasks, p)
    {
      if p in ids {
        PartitionOrdersEmptied(tasks, TaskPlanAmong(ids), TaskPlanIs(p), TaskMatches, TaskOrder);
      } else {
        PartitionOrdersWithout(tasks, TaskPlanAmong(ids), TaskPlanIs(p), TaskMatches, TaskOrder);
      }
    }
    forall p: Id
      ensures Dense(TaskRepo.Orders(r, p))
    {
      assert Dense(TaskRepo.Orders(tasks, p));
    }
  }
}
