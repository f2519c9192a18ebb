/**
 * PlanService: the plan operations a signed-in caller runs. Each one checks
 * its guards in order and stops at the first that fails, before it writes
 * anything; then it runs its repository statements. The caller (the user id
 * the request carries) is a parameter.
 *
 * Every mutating operation keeps the sort orders of every (owner, type)
 * partition dense when they were dense, except ReOrder under the guard as
 * the source writes it (SortOrder.ReorderRejectedAsWritten), which this
 * model replaces by the corrected guard.
 */
module PlanService {
  import opened Errors
  import opened Rows
  import opened SortOrder
  import opened Schema
  import PlanRepo
  import TaskRepo
  import PlanMembersRepo
  import UserRepo
  import SuggestedEmailsRepo

  /** The number of plans of one type a user may own, and of tasks a plan may hold. */
  const MaxPlans := 100
  /** The number of members a plan may have, and of memberships on one owner's plans before a first share. */
  const MaxShares := 20

  // ---------------------------------------------------------------- guards

  /**
   * ValidateUserOwnsThePlan: an unknown plan is an ArgumentException, a plan
   * whose owner row is missing dereferences null, and another owner's plan is
   * Unauthorized.
   */
  function ValidateUserOwnsThePlan(s: State, caller: Id, planId: Id): (o: Outcome)
    ensures o == Fail(ArgumentError("planId not found")) <==> forall i :: 0 <= i < |s.plans| ==> s.plans[i].id != planId
    ensures o.Done? ==> exists i :: 0 <= i < |s.plans| && s.plans[i].id == planId && s.plans[i].userId == caller
    ensures o == Fail(Unauthorized("User does not own this plan")) ==> exists i :: 0 <= i < |s.plans| && s.plans[i].id == planId && s.plans[i].userId != caller
    ensures o == Fail(NullReference) ==>
      exists i :: 0 <= i < |s.plans| && s.plans[i].id == planId && forall j :: 0 <= j < |s.users| ==> s.users[j].id != s.plans[i].userId
    ensures o in {Done, Fail(ArgumentError("planId not found")), Fail(NullReference), Fail(Unauthorized("User does not own this plan"))}
  {
    match PlanRepo.GetOne(s, planId)
    case None => Fail(ArgumentError("planId not found"))
    case Some(v) =>
      match v.owner
      case None => Fail(NullReference)
      case Some(u) => if u.id != caller then Fail(Unauthorized("User does not own this plan")) else Done
  }

  /** ValidateUserLoggedIn: the caller is logged in when its user row has an email. */
  function ValidateUserLoggedIn(users: seq<User>, caller: Id): (o: Outcome)
    ensures o == Fail(NullReference) <==> forall i :: 0 <= i < |users| ==> users[i].id != caller
    ensures o.Done? ==> exists i :: 0 <= i < |users| && users[i].id == caller && users[i].email.Some?
    ensures o == Fail(LogicError("you_are_not_logged_in")) ==> exists i :: 0 <= i < |users| && users[i].id == caller && users[i].email.None?
    ensures o in {Done, Fail(NullReference), Fail(LogicError("you_are_not_logged_in"))}
    ensures o.Done? ==> UserRepo.GetOne(users, caller).Some? && UserRepo.GetOne(users, caller).value.email.Some?
  {
    match UserRepo.GetOne(users, caller)
    case None => Fail(NullReference)
    case Some(u) => if u.email.None? then Fail(LogicError("you_are_not_logged_in")) else Done
  }

  /**
   * The Share quota: a plan already shared may have at most 20 members; a
   * plan shared for the first time needs the owner's plans to carry fewer
   * than 20 membership rows in all.
   */
  predicate QuotaReached(s: State, caller: Id, planId: Id)
  {
    if PlanRepo.IsShared(s.members, planId)
    then PlanMembersRepo.GetUsersCount(s.members, planId) >= MaxShares
    else PlanMembersRepo.GetPlansCount(s.members, s.plans, caller) >= MaxShares
  }

  /** Whatever its branch, a quota that is not reached leaves room for one more member of the plan. */
  lemma QuotaLeavesRoom(s: State, caller: Id, planId: Id)
    requires !QuotaReached(s, caller, planId)
    ensures PlanMembersRepo.GetUsersCount(s.members, planId) < MaxShares
  {
    PlanMembersRepo.SharedIffCounted(s.members, planId);
  }

  // ---------------------------------------------------------------- reads

  /** A plan with the users it is shared with; the list is empty for a plan that is not shared. */
  datatype PlanDetail = PlanDetail(view: PlanRepo.PlanView, members: seq<User>)

  /** GetOne: the plan, and its members when it is shared. */
  function GetOne(s: State, planId: Id): (r: Option<PlanDetail>)
    ensures r.None? <==> forall i :: 0 <= i < |s.plans| ==> s.plans[i].id != planId
    ensures r.Some? ==> Some(r.value.view) == PlanRepo.GetOne(s, planId)
    ensures r.Some? && !r.value.view.isShared ==> r.value.members == []
    ensures r.Some? && r.value.view.isShared ==> r.value.members == PlanMembersRepo.GetUsers(s, planId)
    ensures r.Some? ==> forall u :: u in r.value.members ==>
      u in s.users && exists m :: m in s.members && m.planId == planId && m.userId == u.id
  {
    match PlanRepo.GetOne(s, planId)
    case None => None
    case Some(v) => Some(PlanDetail(v, if v.isShared then PlanMembersRepo.GetUsers(s, planId) else []))
  }

  /**
   * GetMany: the caller's plans of one type, highest sort order first, then,
   * for a logged-in caller, the plans others share with the caller.
   */
  function GetMany(s: State, caller: Id, loggedIn: bool, t: PlanType): (r: seq<PlanRepo.PlanView>)
    ensures |r| == PlanRepo.GetCount(s.plans, caller, t) + (if loggedIn then |PlanMembersRepo.GetOtherPlans(s, caller)| else 0)
    ensures r[..PlanRepo.GetCount(s.plans, caller, t)] == PlanRepo.GetMany(s, caller, t)
    ensures SortedDesc(PlanRepo.PlansOf(r[..PlanRepo.GetCount(s.plans, caller, t)]), PlanOrder)
    ensures r[PlanRepo.GetCount(s.plans, caller, t)..] == if loggedIn then PlanMembersRepo.GetOtherPlans(s, caller) else []
    ensures forall i :: 0 <= i < PlanRepo.GetCount(s.plans, caller, t) ==>
      r[i].plan in s.plans && r[i].plan.userId == caller && r[i].plan.planType == t
    ensures forall i :: PlanRepo.GetCount(s.plans, caller, t) <= i < |r| ==> r[i].isShared
    ensures forall p :: p in s.plans && p.userId == caller && p.planType == t ==> exists i :: 0 <= i < |r| && r[i].plan == p
  {
    var own := PlanRepo.GetMany(s, caller, t);
    var others := if loggedIn then PlanMembersRepo.GetOtherPlans(s, caller) else [];
    OwnPlans(s, caller, t);
    OtherPlansShared(s, caller);
    ConcatParts(own, others, s, caller, loggedIn, t);
    own + others
  }

  /** Appending the shared plans keeps the caller's plans first and adds shared plans only. */
  lemma ConcatParts(own: seq<PlanRepo.PlanView>, others: seq<PlanRepo.PlanView>, s: State, caller: Id, loggedIn: bool, t: PlanType)
    requires forall i :: 0 <= i < |own| ==> own[i].plan in s.plans && own[i].plan.userId == caller && own[i].plan.planType == t
    requires forall p :: p in s.plans && p.userId == caller && p.planType == t ==> exists i :: 0 <= i < |own| && own[i].plan == p
    requires forall i :: 0 <= i < |others| ==> others[i].isShared
    ensures var r := own + others;
      && (forall i :: 0 <= i < |own| ==> r[i].plan in s.plans && r[i].plan.userId == caller && r[i].plan.planType == t)
      && (forall i :: |own| <= i < |r| ==> r[i].isShared)
      && (forall p :: p in s.plans && p.userId == caller && p.planType == t ==> exists i :: 0 <= i < |r| && r[i].plan == p)
  {
    var r := own + others;
    forall i | 0 <= i < |own|
      ensures r[i] == own[i]
    {
    }
    forall p | p in s.plans && p.userId == caller && p.planType == t
      ensures exists i :: 0 <= i < |r| && r[i].plan == p
    {
      var i :| 0 <= i < |own| && own[i].plan == p;
      assert r[i] == own[i];
    }
    forall i | |own| <= i < |r|
      ensures r[i].isShared
    {
      assert r[i] == others[i - |own|];
    }
  }

  /** The first part of GetMany holds exactly the caller's plans of the type. */
  lemma OwnPlans(s: State, caller: Id, t: PlanType)
    ensures var own := PlanRepo.GetMany(s, caller, t);
      && |own| == PlanRepo.GetCount(s.plans, caller, t)
      && (forall i :: 0 <= i < |own| ==> own[i].plan in s.plans && own[i].plan.userId == caller && own[i].plan.planType == t)
      && (forall p :: p in s.plans && p.userId == caller && p.planType == t ==> exists i :: 0 <= i < |own| && own[i].plan == p)
  {
    var own := PlanRepo.GetMany(s, caller, t);
    var part := Filter(s.plans, PartitionIs(caller, t), PlanMatches, true);
    assert |PlanRepo.PlansOf(own)| == |part| by {
      assert |multiset(PlanRepo.PlansOf(own))| == |multiset(part)|;
    }
    forall i | 0 <= i < |own|
      ensures own[i].plan in s.plans && own[i].plan.userId == caller && own[i].plan.planType == t
    {
      assert PlanRepo.PlansOf(own)[i] in multiset(part);
    }
    forall p | p in s.plans && p.userId == caller && p.planType == t
      ensures exists i :: 0 <= i < |own| && own[i].plan == p
    {
      assert p in multiset(PlanRepo.PlansOf(own));
      var i :| 0 <= i < |own| && PlanRepo.PlansOf(own)[i] == p;
    }
  }

  /** The second part of GetMany holds shared plans only. */
  lemma OtherPlansShared(s: State, caller: Id)
    ensures var others := PlanMembersRepo.GetOtherPlans(s, caller);
      forall i :: 0 <= i < |others| ==> others[i].isShared
  {
    var others := PlanMembersRepo.GetOtherPlans(s, caller);
    forall i | 0 <= i < |others|
      ensures others[i].isShared
    {
      assert others[i] in others;
    }
  }

  // ---------------------------------------------------------------- operations

  /** Create: refused with max_is_100 when the caller has 100 Main plans; else appended to the Main partition. */
  method Create(db: Db, caller: Id, plan: PlanRepo.PlanIn) returns (r: Result<Id>)
    requires db.Valid()
    modifies db
    ensures db.Valid()
    ensures r.Failure? <==> PlanRepo.GetCount(old(db.plans), caller, Main) >= MaxPlans
    ensures r.Failure? ==> r.error == LogicError("max_is_100") && unchanged(db)
    ensures r.Ok? ==> db.plans == old(db.plans) + [PlanRepo.NewPlan(r.value, caller, plan, PlanRepo.GetCount(old(db.plans), caller, Main), old(db.clock))]
    ensures r.Ok? ==> db.Snapshot() == old(db.Snapshot()).(plans := db.plans)
    ensures r.Ok? ==> PlanRepo.GetCount(db.plans, caller, Main) == PlanRepo.GetCount(old(db.plans), caller, Main) + 1 <= MaxPlans
  {
    var count := PlanRepo.GetCount(db.plans, caller, Main);
    if count >= MaxPlans {
      return Failure(LogicError("max_is_100"));
    }
    var id := PlanRepo.Create(db, caller, plan);
    PartitionOrdersConcat(old(db.plans), [db.plans[|db.plans| - 1]], PartitionIs(caller, Main), PlanMatches, PlanOrder);
    PartitionOrdersSingle(db.plans[|db.plans| - 1], PartitionIs(caller, Main), PlanMatches, PlanOrder);
    r := Ok(id);
  }

  /** Update: the owner's edit of title, starts and ends. */
  method Update(db: Db, caller: Id, plan: PlanRepo.PlanIn) returns (o: Outcome)
    requires db.Valid()
    modifies db
    ensures db.Valid()
    ensures o == ValidateUserOwnsThePlan(old(db.Snapshot()), caller, plan.id)
    ensures o.Fail? ==> unchanged(db)
    ensures o.Done? ==> db.plans == UpdateAll(old(db.plans), PlanRepo.SetDetails(plan.id, plan.title, plan.starts, plan.ends, db.clock), PlanRepo.Updated)
    ensures db.Snapshot() == old(db.Snapshot()).(plans := db.plans) && db.clock == old(db.clock)
    ensures forall u: Id, t: PlanType :: PlanRepo.Orders(db.plans, u, t) == PlanRepo.Orders(old(db.plans), u, t)
  {
    o := ValidateUserOwnsThePlan(db.Snapshot(), caller, plan.id);
    if o.Fail? {
      return;
    }
    PlanRepo.Update(db, plan);
    forall u: Id, t: PlanType
      ensures PlanRepo.Orders(db.plans, u, t) == PlanRepo.Orders(old(db.plans), u, t)
    {
      PlanRepo.DetailsKeepOrders(old(db.plans), PlanRepo.SetDetails(plan.id, plan.title, plan.starts, plan.ends, db.clock), u, t);
    }
  }

  /**
   * Delete: RemoveFromOrder then the delete, in one transaction; the plan's
   * tasks and memberships go with it. Dense partitions stay dense.
   */
  method Delete(db: Db, caller: Id, id: Id) returns (o: Outcome)
    requires db.Valid()
    modifies db
    ensures db.Valid()
    ensures o == ValidateUserOwnsThePlan(old(db.Snapshot()), caller, id)
    ensures o.Fail? ==> unchanged(db)
    ensures o.Done? ==> db.plans == Filter(PlanRepo.Compacted(old(db.plans), caller, id), PlanIdIs(id), PlanMatches, false)
    ensures o.Done? ==> db.tasks == Filter(old(db.tasks), TaskPlanIs(id), TaskMatches, false)
    ensures o.Done? ==> db.members == Filter(old(db.members), MemberPlanIs(id), MemberMatches, false)
    ensures db.users == old(db.users) && db.devices == old(db.devices) && db.emails == old(db.emails)
  {
    o := ValidateUserOwnsThePlan(db.Snapshot(), caller, id);
    if o.Fail? {
      return;
    }
    RemovePlan(db, caller, id);
  }

  /** The statements of Delete once the caller owns the plan: close its gap, then delete it with its tasks and members. */
  method RemovePlan(db: Db, caller: Id, id: Id)
    requires db.Valid()
    modifies db`plans, db`tasks, db`members
    ensures db.Valid()
    ensures db.plans == Filter(PlanRepo.Compacted(old(db.plans), caller, id), PlanIdIs(id), PlanMatches, false)
    ensures db.tasks == Filter(old(db.tasks), TaskPlanIs(id), TaskMatches, false)
    ensures db.members == Filter(old(db.members), MemberPlanIs(id), MemberMatches, false)
  {
    PlanRepo.RemoveFromOrder(db, caller, id);
    PlanRepo.Delete(db, id);
  }

  /**
   * The suggested_emails table after the two inserts of Share, the first
   * under id `id` at time `at`, the second under the next id one tick later:
   * the caller learns `email`, the target learns the caller's `own`.
   */
  function BothWays(emails: seq<SuggestedEmail>, id: Id, at: nat, caller: Id, email: string, target: Id, own: string): seq<SuggestedEmail>
  {
    SuggestedEmailsRepo.Inserted(SuggestedEmailsRepo.Inserted(emails, id, caller, email, at), id + 1, target, own, at + 1)
  }

  /** The suggested_emails table Share leaves when its membership row was stamped `at`: both inserts take the next ticks. */
  function ShareEmails(emails: seq<SuggestedEmail>, id: Id, at: nat, caller: Id, email: string, target: Id, own: string): seq<SuggestedEmail>
  {
    BothWays(emails, id, at + 1, caller, email, target, own)
  }

  /** After both inserts each side knows the other's e-mail, and no earlier row is lost or reordered. */
  lemma BothWaysPairs(emails: seq<SuggestedEmail>, id: Id, at: nat, caller: Id, email: string, target: Id, own: string)
    ensures var r := BothWays(emails, id, at, caller, email, target, own);
      SuggestedEmailsRepo.HasPair(r, caller, email) && SuggestedEmailsRepo.HasPair(r, target, own) && emails <= r
  {
    var middle := SuggestedEmailsRepo.Inserted(emails, id, caller, email, at);
    SuggestedEmailsRepo.InsertedPairs(emails, id, caller, email, at, caller, email);
    SuggestedEmailsRepo.InsertedPairs(middle, id + 1, target, own, at + 1, caller, email);
    SuggestedEmailsRepo.InsertedPairs(middle, id + 1, target, own, at + 1, target, own);
  }

  /**
   * Share: logged in, owner, target email known, target not the caller,
   * quota; then the membership and the suggested emails both ways.
   */
  method Share(db: Db, caller: Id, id: Id, email: string) returns (o: Outcome)
    requires db.Valid()
    modifies db
    ensures db.Valid()
    ensures var s := old(db.Snapshot());
      var login := ValidateUserLoggedIn(s.users, caller);
      var owns := ValidateUserOwnsThePlan(s, caller, id);
      var target := UserRepo.GetOneByEmail(s.users, email);
      && (login.Fail? ==> o == login)
      && (login.Done? && owns.Fail? ==> o == owns)
      && (login.Done? && owns.Done? && target.None? ==> o == Fail(ArgumentError("email_not_found")))
      && (login.Done? && owns.Done? && target.Some? && target.value.id == caller ==> o == Fail(LogicError("not_allowed_to_share_with_creator")))
      && (login.Done? && owns.Done? && target.Some? && target.value.id != caller ==>
            o == if QuotaReached(s, caller, id) then Fail(LogicError("max_is_20")) else Done)
    ensures o.Fail? ==> unchanged(db)
    ensures o.Done? ==>
      var target := UserRepo.GetOneByEmail(old(db.users), email).value;
      var own := UserRepo.GetOne(old(db.users), caller).value.email.value;
      && db.members == old(db.members) + [Member(id, target.id, old(db.clock))]
      && PlanMembersRepo.GetUsersCount(db.members, id) == PlanMembersRepo.GetUsersCount(old(db.members), id) + 1 <= MaxShares
      && SuggestedEmailsRepo.HasPair(db.emails, caller, email)
      && SuggestedEmailsRepo.HasPair(db.emails, target.id, own)
      && old(db.emails) <= db.emails
      && db.emails == ShareEmails(old(db.emails), old(db.nextId), old(db.clock), caller, email, target.id, own)
      && db.nextId == old(db.nextId) + 2 && db.clock == old(db.clock) + 3
    ensures db.plans == old(db.plans) && db.tasks == old(db.tasks) && db.users == old(db.users) && db.devices == old(db.devices)
  {
    o := ValidateUserLoggedIn(db.users, caller);
    if o.Fail? {
      return;
    }
    o := ValidateUserOwnsThePlan(db.Snapshot(), caller, id);
    if o.Fail? {
      return;
    }
    var target := UserRepo.GetOneByEmail(db.users, email);
    if target.None? {
      return Fail(ArgumentError("email_not_found"));
    }
    if target.value.id == caller {
      return Fail(LogicError("not_allowed_to_share_with_creator"));
    }
    if QuotaReached(db.Snapshot(), caller, id) {
      return Fail(LogicError("max_is_20"));
    }
    QuotaLeavesRoom(db.Snapshot(), caller, id);
    var own := UserRepo.GetOne(db.users, caller).value.email.value;
    ShareWith(db, caller, id, email, target.value.id, own);
    o := Done;
  }

  /** The writes of Share once its guards pass: the membership, then the suggested email of each side for the other. */
  method ShareWith(db: Db, caller: Id, id: Id, email: string, targetId: Id, own: string)
    requires db.Valid()
    modifies db`members, db`emails, db`nextId, db`clock
    ensures db.Valid()
    ensures db.members == old(db.members) + [Member(id, targetId, old(db.clock))]
    ensures PlanMembersRepo.GetUsersCount(db.members, id) == PlanMembersRepo.GetUsersCount(old(db.members), id) + 1
    ensures SuggestedEmailsRepo.HasPair(db.emails, caller, email) && SuggestedEmailsRepo.HasPair(db.emails, targetId, own)
    ensures old(db.emails) <= db.emails
    ensures db.emails == ShareEmails(old(db.emails), old(db.nextId), old(db.clock), caller, email, targetId, own)
    ensures db.nextId == old(db.nextId) + 2 && db.clock == old(db.clock) + 3
    ensures db.plans == old(db.plans) && db.tasks == old(db.tasks) && db.users == old(db.users) && db.devices == old(db.devices)
  {
    PlanMembersRepo.UsersCountAfterCreate(db.members, id, targetId, db.clock, id);
    PlanMembersRepo.Create(db, id, targetId);
    ghost var e1, n1, c1 := db.emails, db.nextId, db.clock;
    assert e1 == old(db.emails) && n1 == old(db.nextId) && c1 == old(db.clock) + 1;
    SuggestBoth(db, caller, email, targetId, own);
    assert db.emails == BothWays(e1, n1, c1, caller, email, targetId, own);
  }

  /** The two SuggestedEmailsRepo.Create calls of Share: each side learns the other's e-mail. */
  method SuggestBoth(db: Db, caller: Id, email: string, targetId: Id, own: string)
    requires db.Valid()
    modifies db`emails, db`nextId, db`clock
    ensures db.Valid()
    ensures SuggestedEmailsRepo.HasPair(db.emails, caller, email) && SuggestedEmailsRepo.HasPair(db.emails, targetId, own)
    ensures old(db.emails) <= db.emails
    ensures db.emails == BothWays(old(db.emails), old(db.nextId), old(db.clock), caller, email, targetId, own)
    ensures db.nextId == old(db.nextId) + 2 && db.clock == old(db.clock) + 2
    ensures db.Snapshot() == old(db.Snapshot()).(emails := db.emails)
  {
    ghost var before, n0, c0 := db.emails, db.nextId, db.clock;
    var first := SuggestedEmailsRepo.Create(db, caller, email);
    ghost var middle, n1, c1 := db.emails, db.nextId, db.clock;
    var second := SuggestedEmailsRepo.Create(db, targetId, own);
    assert db.emails == SuggestedEmailsRepo.Inserted(middle, n1, targetId, own, c1);
    assert middle == SuggestedEmailsRepo.Inserted(before, n0, caller, email, c0);
    assert n1 == n0 + 1 && c1 == c0 + 1;
    assert db.emails == BothWays(before, n0, c0, caller, email, targetId, own);
    BothWaysPairs(before, n0, c0, caller, email, targetId, own);
  }

  /** Unshare: logged in, owner, target email known; then the target's membership rows on the plan go. */
  method Unshare(db: Db, caller: Id, id: Id, email: string) returns (o: Outcome)
    requires db.Valid()
    modifies db
    ensures db.Valid()
    ensures var s := old(db.Snapshot());
      var login := ValidateUserLoggedIn(s.users, caller);
      var owns := ValidateUserOwnsThePlan(s, caller, id);
      var target := UserRepo.GetOneByEmail(s.users, email);
      && (login.Fail? ==> o == login)
      && (login.Done? && owns.Fail? ==> o == owns)
      && (login.Done? && owns.Done? ==> o == if target.None? then Fail(ArgumentError("email_not_found")) else Done)
    ensures o.Fail? ==> unchanged(db)
    ensures o.Done? ==>
      var target := UserRepo.GetOneByEmail(old(db.users), email).value;
      && db.members == Filter(old(db.members), MemberIs(id, target.id), MemberMatches, false)
      && forall i :: 0 <= i < |db.members| ==> !(db.members[i].planId == id && db.members[i].userId == target.id)
    ensures db.Snapshot() == old(db.Snapshot()).(members := db.members)
  {
    o := ValidateUserLoggedIn(db.users, caller);
    if o.Fail? {
      return;
    }
    o := ValidateUserOwnsThePlan(db.Snapshot(), caller, id);
    if o.Fail? {
      return;
    }
    var target := UserRepo.GetOneByEmail(db.users, email);
    if target.None? {
      return Fail(ArgumentError("email_not_found"));
    }
    var removed := PlanMembersRepo.Delete(db, id, target.value.id);
  }

  /**
   * Leave: a logged-in caller's membership rows on the plan are deleted; the
   * call succeeds only when exactly one row went. No transaction: a refusal
   * after the delete keeps the delete.
   */
  method Leave(db: Db, caller: Id, id: Id) returns (o: Outcome)
    requires db.Valid()
    modifies db
    ensures db.Valid()
    ensures var login := ValidateUserLoggedIn(old(db.users), caller);
      && (login.Fail? ==> o == login && unchanged(db))
      && (login.Done? ==> db.members == Filter(old(db.members), MemberIs(id, caller), MemberMatches, false))
      && (login.Done? ==> (o.Done? <==> Count(old(db.members), MemberIs(id, caller), MemberMatches) == 1))
      && (login.Done? && o.Fail? ==> o == Fail(ArgumentError("unable to leave")))
    ensures o.Fail? ==> o.error in {NullReference, LogicError("you_are_not_logged_in"), ArgumentError("unable to leave")}
    ensures db.Snapshot() == old(db.Snapshot()).(members := db.members)
  {
    o := ValidateUserLoggedIn(db.users, caller);
    if o.Fail? {
      return;
    }
    var removed := PlanMembersRepo.Delete(db, id, caller);
    o := if removed == 1 then Done else Fail(ArgumentError("unable to leave"));
  }

  /**
   * UpdateType: the owner moves a plan to another type, unless that type
   * already holds 100 of the caller's plans; RemoveFromOrder then the
   * corrected UpdateType, in one transaction.
   */
  method UpdateType(db: Db, caller: Id, id: Id, t: PlanType) returns (o: Outcome)
    requires db.Valid()
    modifies db
    ensures db.Valid()
    ensures var owns := ValidateUserOwnsThePlan(old(db.Snapshot()), caller, id);
      && (owns.Fail? ==> o == owns)
      && (owns.Done? ==> o == if PlanRepo.GetCount(old(db.plans), caller, t) >= MaxPlans then Fail(LogicError("max_is_100")) else Done)
    ensures o.Fail? ==> unchanged(db)
    ensures o.Done? ==> db.plans == PlanRepo.Retyped(PlanRepo.Compacted(old(db.plans), caller, id), caller, id, t, db.clock)
    ensures db.Snapshot() == old(db.Snapshot()).(plans := db.plans) && db.clock == old(db.clock)
  {
    o := ValidateUserOwnsThePlan(db.Snapshot(), caller, id);
    if o.Fail? {
      return;
    }
    var count := PlanRepo.GetCount(db.plans, caller, t);
    if count >= MaxPlans {
      return Fail(LogicError("max_is_100"));
    }
    ghost var k :| 0 <= k < |db.plans| && db.plans[k].id == id && db.plans[k].userId == caller;
    Retype(db, caller, id, t, k);
  }

  /** The writes of UpdateType once its guards pass, for the caller's plan at row k. */
  method Retype(db: Db, caller: Id, id: Id, t: PlanType, ghost k: int)
    requires db.Valid() && 0 <= k < |db.plans| && db.plans[k].id == id && db.plans[k].userId == caller
    modifies db
    ensures db.Valid()
    ensures db.plans == PlanRepo.Retyped(PlanRepo.Compacted(old(db.plans), caller, id), caller, id, t, db.clock)
    ensures db.Snapshot() == old(db.Snapshot()).(plans := db.plans) && db.clock == old(db.clock)
  {
    PlanRepo.CompactedAt(db.plans, db.nextId, caller, k);
    PlanRepo.KeyedUpdated(db.plans, db.nextId, PlanRepo.ShiftOrders(caller, db.plans[k].planType, Compact(db.plans[k].sortOrder)));
    PlanRepo.RemoveFromOrder(db, caller, id);
    PlanRepo.RetypedAt(db.plans, db.nextId, k, caller, t, db.clock);
    PlanRepo.UpdateType(db, caller, id, t);
  }

  /**
   * ReOrder: moves the caller's plan at oldOrder of partition (caller, t) to
   * newOrder. The guard is the corrected one: both indices must lie in
   * 0..count-1.
   */
  method ReOrder(db: Db, caller: Id, t: PlanType, oldOrder: int, newOrder: int) returns (o: Outcome)
    requires db.Valid()
    modifies db
    ensures db.Valid()
    ensures var count := PlanRepo.GetCount(old(db.plans), caller, t);
      o == if ReorderRejected(count, oldOrder, newOrder)
           then Fail(ReorderError(count))
           else Done
    ensures o.Fail? ==> unchanged(db)
    ensures o.Done? ==> db.plans == UpdateAll(old(db.plans), PlanRepo.ShiftOrders(caller, t, Move(oldOrder, newOrder)), PlanRepo.Updated)
    ensures o.Done? ==> forall i :: 0 <= i < |old(db.plans)| ==>
      (old(db.plans)[i].userId == caller && old(db.plans)[i].planType == t && old(db.plans)[i].sortOrder == oldOrder ==>
         db.plans[i].sortOrder == newOrder)
    ensures db.Snapshot() == old(db.Snapshot()).(plans := db.plans)
  {
    var count := PlanRepo.GetCount(db.plans, caller, t);
    if ReorderRejected(count, oldOrder, newOrder) {
      return Fail(ReorderError(count));
    }
    PlanRepo.UpdateOrder(db, caller, t, oldOrder, newOrder);
    o := Done;
  }

  // ---------------------------------------------------------------- properties

  /**
   * Delete of an owned plan keeps every plan partition and every task
   * partition dense: the plan's partition closes the plan's gap, and the
   * plan's tasks go as a whole.
   */
  lemma DeleteKeepsDense(s: State, bound: nat, caller: Id, id: Id)
    requires Keyed(s.plans, PlanKey, bound)
    requires ValidateUserOwnsThePlan(s, caller, id).Done?
    requires PlanRepo.OrdersDense(s.plans) && TaskRepo.OrdersDense(s.tasks)
    ensures PlanRepo.OrdersDense(Filter(PlanRepo.Compacted(s.plans, caller, id), PlanIdIs(id), PlanMatches, false))
    ensures TaskRepo.OrdersDense(Filter(s.tasks, TaskPlanIs(id), TaskMatches, false))
  {
    var k :| 0 <= k < |s.plans| && s.plans[k].id == id && s.plans[k].userId == caller;
    PlanRepo.DeleteKeepsDense(s.plans, bound, k);
    TaskRepo.DeleteAllKeepsDense(s.tasks, id);
  }

  /**
   * UpdateType of an owned plan keeps every partition dense: the plan leaves
   * its partition, which closes the gap, and joins the end of the target one.
   */
  lemma UpdateTypeKeepsDense(s: State, bound: nat, caller: Id, id: Id, t: PlanType, at: nat)
    requires Keyed(s.plans, PlanKey, bound)
    requires ValidateUserOwnsThePlan(s, caller, id).Done?
    requires PlanRepo.OrdersDense(s.plans)
    ensures PlanRepo.OrdersDense(PlanRepo.Retyped(PlanRepo.Compacted(s.plans, caller, id), caller, id, t, at))
  {
    var k :| 0 <= k < |s.plans| && s.plans[k].id == id && s.plans[k].userId == caller;
    PlanRepo.RetypeKeepsDense(s.plans, bound, k, t, at);
  }
}
