/**
 * The six tables of the Mahaam database and their rows.
 *
 * A Guid is a natural number; 0 stands for Guid.Empty and is never the id of
 * a row. `current_timestamp` is a counter (`clock`) that only grows: the
 * model uses timestamps only to order rows. The `Db` object holds the tables;
 * the repositories are stateless and change it through `modifies db`.
 */
module Schema {
  import opened Errors
  import opened Rows

  type Id = nat

  const EmptyId: Id := 0

  datatype PlanType = Main | Archived

  datatype PlanStatus = Open | Closed

  /** The done_percent column, stored as the text "done/total". */
  datatype Progress = Progress(done: nat, total: nat)

  datatype Plan = Plan(
    id: Id,
    userId: Id,
    title: Option<string>,
    planType: PlanType,
    status: PlanStatus,
    sortOrder: int,
    starts: Option<int>,
    ends: Option<int>,
    donePercent: Progress,
    createdAt: nat,
    updatedAt: Option<nat>)

  datatype Task = Task(
    id: Id,
    planId: Id,
    title: string,
    done: bool,
    sortOrder: int,
    createdAt: nat,
    updatedAt: Option<nat>)

  /** A row of plan_members: userId may read and edit planId, owned by someone else. */
  datatype Member = Member(planId: Id, userId: Id, createdAt: nat)

  datatype User = User(id: Id, email: Option<string>, name: Option<string>, createdAt: nat, updatedAt: Option<nat>)

  datatype Device = Device(
    id: Id,
    userId: Id,
    platform: Option<string>,
    fingerprint: string,
    info: Option<string>,
    createdAt: nat,
    updatedAt: Option<nat>)

  datatype SuggestedEmail = SuggestedEmail(id: Id, userId: Id, email: string, createdAt: nat)

  // Key and order columns, as function values for Rows and SortOrder.
  function PlanKey(p: Plan): nat { p.id }
  function TaskKey(t: Task): nat { t.id }
  function UserKey(u: User): nat { u.id }
  function DeviceKey(d: Device): nat { d.id }
  function EmailKey(e: SuggestedEmail): nat { e.id }
  function MemberPlan(m: Member): nat { m.planId }
  function MemberUser(m: Member): nat { m.userId }
  function PlanOrder(p: Plan): int { p.sortOrder }
  function TaskOrder(t: Task): int { t.sortOrder }
  function PlanCreated(p: Plan): int { p.createdAt }
  function UserCreated(u: User): int { u.createdAt }
  function DeviceCreated(d: Device): int { d.createdAt }
  function EmailCreated(e: SuggestedEmail): int { e.createdAt }

  // WHERE clauses of the statements, one descriptor type per table.

  datatype PlanWhere =
    | PlanIdIs(id: Id)
    | OwnerIs(userId: Id)
    | PartitionIs(userId: Id, planType: PlanType)

  predicate PlanMatches(p: Plan, w: PlanWhere)
  {
    match w
    case PlanIdIs(id) => p.id == id
    case OwnerIs(u) => p.userId == u
    case PartitionIs(u, t) => p.userId == u && p.planType == t
  }

  datatype TaskWhere =
    | TaskIdIs(id: Id)
    | TaskPlanIs(planId: Id)
    | TaskPlanAmong(planIds: set<Id>)
    | DoneInPlan(planId: Id)

  predicate TaskMatches(t: Task, w: TaskWhere)
  {
    match w
    case TaskIdIs(id) => t.id == id
    case TaskPlanIs(p) => t.planId == p
    case TaskPlanAmong(ps) => t.planId in ps
    case DoneInPlan(p) => t.planId == p && t.done
  }

  datatype MemberWhere =
    | MemberIs(planId: Id, userId: Id)
    | MemberPlanIs(planId: Id)
    | MemberPlanAmong(planIds: set<Id>)
    | MemberUserIs(userId: Id)

  predicate MemberMatches(m: Member, w: MemberWhere)
  {
    match w
    case MemberIs(p, u) => m.planId == p && m.userId == u
    case MemberPlanIs(p) => m.planId == p
    case MemberPlanAmong(ps) => m.planId in ps
    case MemberUserIs(u) => m.userId == u
  }

  datatype UserWhere = UserIdIs(id: Id) | UserEmailIs(email: string)

  predicate UserMatches(u: User, w: UserWhere)
  {
    match w
    case UserIdIs(id) => u.id == id
    case UserEmailIs(e) => u.email == Some(e)
  }

  datatype DeviceWhere = DeviceIdIs(id: Id) | FingerprintIs(fingerprint: string) | DeviceOwnerIs(userId: Id)

  predicate DeviceMatches(d: Device, w: DeviceWhere)
  {
    match w
    case DeviceIdIs(id) => d.id == id
    case FingerprintIs(f) => d.fingerprint == f
    case DeviceOwnerIs(u) => d.userId == u
  }

  datatype EmailWhere =
    | EmailIdIs(id: Id)
    | EmailTextIs(email: string)
    | EmailOwnerIs(userId: Id)
    | EmailPairIs(userId: Id, email: string)

  predicate EmailMatches(e: SuggestedEmail, w: EmailWhere)
  {
    match w
    case EmailIdIs(id) => e.id == id
    case EmailTextIs(t) => e.email == t
    case EmailOwnerIs(u) => e.userId == u
    case EmailPairIs(u, t) => e.userId == u && e.email == t
  }

  /** The contents of all six tables at one moment. */
  datatype State = State(
    plans: seq<Plan>,
    tasks: seq<Task>,
    members: seq<Member>,
    users: seq<User>,
    devices: seq<Device>,
    emails: seq<SuggestedEmail>)

  /** suggested_emails has a unique (user_id, email) constraint. */
  ghost predicate EmailPairsUnique(emails: seq<SuggestedEmail>)
  {
    forall i, j :: 0 <= i < j < |emails| ==>
      emails[i].userId != emails[j].userId || emails[i].email != emails[j].email
  }

  /** Every id column holds distinct, non-empty Guids handed out before `bound`. */
  ghost predicate KeyedBelow(s: State, bound: nat)
  {
    && Keyed(s.plans, PlanKey, bound)
    && Keyed(s.tasks, TaskKey, bound)
    && Keyed(s.users, UserKey, bound)
    && Keyed(s.devices, DeviceKey, bound)
    && Keyed(s.emails, EmailKey, bound)
  }

  lemma KeyedRaise<T>(rows: seq<T>, key: T -> nat, bound: nat, bound': nat)
    requires Keyed(rows, key, bound) && bound <= bound'
    ensures Keyed(rows, key, bound')
  {
  }

  class Db {
    var plans: seq<Plan>
    var tasks: seq<Task>
    var members: seq<Member>
    var users: seq<User>
    var devices: seq<Device>
    var emails: seq<SuggestedEmail>
    /** current_timestamp */
    var clock: nat
    /** The next Guid that Guid.NewGuid() hands out. */
    var nextId: nat

    function Snapshot(): State
      reads this
    {
      State(plans, tasks, members, users, devices, emails)
    }

    ghost predicate Valid()
      reads this
    {
      && nextId >= 1
      && KeyedBelow(Snapshot(), nextId)
      && EmailPairsUnique(emails)
    }

    constructor ()
      ensures Valid()
      ensures Snapshot() == State([], [], [], [], [], [])
    {
      plans, tasks, members, users, devices, emails := [], [], [], [], [], [];
      clock := 0;
      nextId := 1;
    }

    /** Guid.NewGuid(): an id no row has. */
    method NewId() returns (id: Id)
      requires Valid()
      modifies this`nextId
      ensures Valid()
      ensures id == old(nextId) && nextId == id + 1
    {
      id := nextId;
      nextId := nextId + 1;
      KeyedRaise(plans, PlanKey, id, nextId);
      KeyedRaise(tasks, TaskKey, id, nextId);
      KeyedRaise(users, UserKey, id, nextId);
      KeyedRaise(devices, DeviceKey, id, nextId);
      KeyedRaise(emails, EmailKey, id, nextId);
    }

    /** current_timestamp for a statement that inserts a row: later than every earlier one. */
    method Tick() returns (now: nat)
      modifies this`clock
      ensures now == old(clock) && clock == now + 1
    {
      now := clock;
      clock := clock + 1;
    }

    /** The id and the created_at of a row about to be inserted. */
    method NewRow() returns (id: Id, now: nat)
      requires Valid()
      modifies this`nextId, this`clock
      ensures Valid()
      ensures id == old(nextId) && nextId == id + 1
      ensures now == old(clock) && clock == now + 1
    {
      id := NewId();
      now := Tick();
    }

    // Writes of one table; each keeps the id discipline of that table.

    method SetPlans(rows: seq<Plan>)
      requires Valid() && Keyed(rows, PlanKey, nextId)
      modifies this`plans
      ensures Valid() && plans == rows
    {
      plans := rows;
    }

    method SetTasks(rows: seq<Task>)
      requires Valid() && Keyed(rows, TaskKey, nextId)
      modifies this`tasks
      ensures Valid() && tasks == rows
    {
      tasks := rows;
    }

    method SetMembers(rows: seq<Member>)
      requires Valid()
      modifies this`members
      ensures Valid() && members == rows
    {
      members := rows;
    }

    method SetUsers(rows: seq<User>)
      requires Valid() && Keyed(rows, UserKey, nextId)
      modifies this`users
      ensures Valid() && users == rows
    {
      users := rows;
    }

    method SetDevices(rows: seq<Device>)
      requires Valid() && Keyed(rows, DeviceKey, nextId)
      modifies this`devices
      ensures Valid() && devices == rows
    {
      devices := rows;
    }

    method SetEmails(rows: seq<SuggestedEmail>)
      requires Valid() && Keyed(rows, EmailKey, nextId) && EmailPairsUnique(rows)
      modifies this`emails
      ensures Valid() && emails == rows
    {
      emails := rows;
    }

    /** Rolls the tables back to a snapshot taken when a transaction opened. */
    method Restore(s: State)
      requires KeyedBelow(s, nextId) && nextId >= 1 && EmailPairsUnique(s.emails)
      modifies this`plans, this`tasks, this`members, this`users, this`devices, this`emails
      ensures Valid()
      ensures Snapshot() == s
    {
      plans, tasks, members, users, devices, emails := s.plans, s.tasks, s.members, s.users, s.devices, s.emails;
    }
  }
}
