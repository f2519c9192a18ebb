/**
 * PlanMembersRepo: the plan_members table, which shares a plan with users
 * other than its owner, and the joins and counts that read it.
 *
 * A LEFT JOIN row whose partner is missing would carry empty columns. No
 * operation modelled here creates such a membership (Share checks the plan
 * and the user, and deleting either cascades to its memberships), and the
 * joins here drop one.
 */
module PlanMembersRepo {
  import opened Errors
  import opened Rows
  import opened Schema
  import PlanRepo

  // ---------------------------------------------------------------- statements

  /** INSERT INTO plan_members(plan_id, user_id, created_at) */
  method Create(db: Db, planId: Id, userId: Id)
    requires db.Valid()
    modifies db`members, db`clock
    ensures db.Valid()
    ensures db.members == old(db.members) + [Member(planId, userId, old(db.clock))]
    ensures db.clock == old(db.clock) + 1 && db.nextId == old(db.nextId)
    ensures db.Snapshot() == old(db.Snapshot()).(members := db.members)
  {
    var now := db.Tick();
    db.SetMembers(db.members + [Member(planId, userId, now)]);
  }

  /** DELETE FROM plan_members WHERE plan_id = @planId AND user_id = @userId; returns the row count. */
  method Delete(db: Db, planId: Id, userId: Id) returns (removed: nat)
    requires db.Valid()
    modifies db`members
    ensures db.Valid()
    ensures db.members == Filter(old(db.members), MemberIs(planId, userId), MemberMatches, false)
    ensures removed == Count(old(db.members), MemberIs(planId, userId), MemberMatches)
  {
    var rows;
    rows, removed := DeleteWhere(db.members, MemberIs(planId, userId), MemberMatches);
    db.SetMembers(rows);
  }

  // ---------------------------------------------------------------- reads

  /** SELECT COUNT(1) FROM plan_members WHERE plan_id = @planId */
  function GetUsersCount(members: seq<Member>, planId: Id): (n: nat)
    ensures n <= |members|
    ensures n == 0 <==> forall i :: 0 <= i < |members| ==> members[i].planId != planId
  {
    CountZero(members, MemberPlanIs(planId), MemberMatches);
    Count(members, MemberPlanIs(planId), MemberMatches)
  }

  /** The plans of some membership rows: plan_members LEFT JOIN plans ON plan_id = plans.id. */
  function MemberPlans(members: seq<Member>, plans: seq<Plan>): seq<Plan>
  {
    Join(members, plans, MemberPlan, PlanKey)
  }

  /**
   * SELECT COUNT(1) FROM plan_members LEFT JOIN plans ... WHERE plans.user_id = @userId:
   * the membership rows on plans userId owns. It counts rows, not distinct plans.
   */
  function GetPlansCount(members: seq<Member>, plans: seq<Plan>, userId: Id): (n: nat)
    ensures n <= |members|
  {
    Count(MemberPlans(members, plans), OwnerIs(userId), PlanMatches)
  }

  function ViewCreated(v: PlanRepo.PlanView): int
  {
    v.plan.createdAt
  }

  /** The plans with IsShared set and their owner from the LEFT JOIN on users. */
  function SharedViews(s: State, ps: seq<Plan>): (r: seq<PlanRepo.PlanView>)
    ensures |r| == |ps|
    ensures forall i :: 0 <= i < |ps| ==> r[i] == PlanRepo.PlanView(ps[i], true, First(s.users, UserIdIs(ps[i].userId), UserMatches))
  {
    seq(|ps|, i requires 0 <= i < |ps| => PlanRepo.PlanView(ps[i], true, First(s.users, UserIdIs(ps[i].userId), UserMatches)))
  }

  /** The plans of userId's membership rows, one per row, in table order. */
  function SharedPlans(s: State, userId: Id): (ps: seq<Plan>)
    ensures |ps| <= Count(s.members, MemberUserIs(userId), MemberMatches)
    ensures forall p :: p in ps ==> p in s.plans && exists m :: m in s.members && m.userId == userId && m.planId == p.id
    ensures forall i :: 0 <= i < |s.members| && s.members[i].userId == userId && Lookup(s.plans, PlanKey, s.members[i].planId).Some? ==>
      Lookup(s.plans, PlanKey, s.members[i].planId).value in ps
  {
    var mine := Filter(s.members, MemberUserIs(userId), MemberMatches, true);
    forall i | 0 <= i < |s.members| && s.members[i].userId == userId
      ensures exists j :: 0 <= j < |mine| && mine[j] == s.members[i]
    {
      assert s.members[i] in mine;
    }
    MemberPlans(mine, s.plans)
  }

  /**
   * GetOtherPlans: the plans shared with userId, one per membership row of
   * userId, each marked shared and with its owner, ORDER BY created_at DESC.
   */
  function GetOtherPlans(s: State, userId: Id): (r: seq<PlanRepo.PlanView>)
    ensures SortedDesc(r, ViewCreated)
    ensures multiset(r) == multiset(SharedViews(s, SharedPlans(s, userId)))
    ensures forall v :: v in r <==> v.isShared && v.owner == First(s.users, UserIdIs(v.plan.userId), UserMatches) && v.plan in SharedPlans(s, userId)
  {
    var ps := SharedPlans(s, userId);
    var vs := SharedViews(s, ps);
    var r := SortDesc(vs, ViewCreated);
    assert forall v :: v in r <==> v in vs by {
      assert forall v :: v in r <==> v in multiset(vs);
    }
    forall v: PlanRepo.PlanView | v.isShared && v.owner == First(s.users, UserIdIs(v.plan.userId), UserMatches) && v.plan in ps
      ensures v in vs
    {
      var k :| 0 <= k < |ps| && ps[k] == v.plan;
      assert vs[k] == v;
    }
    r
  }

  /**
   * GetUsers: the users a plan is shared with, one per membership row of the
   * plan, ORDER BY users.created_at DESC.
   */
  function GetUsers(s: State, planId: Id): (r: seq<User>)
    ensures SortedDesc(r, UserCreated)
    ensures |r| <= GetUsersCount(s.members, planId)
    ensures forall u :: u in r ==> u in s.users && exists m :: m in s.members && m.planId == planId && m.userId == u.id
    ensures forall i :: 0 <= i < |s.members| && s.members[i].planId == planId && Lookup(s.users, UserKey, s.members[i].userId).Some? ==>
      Lookup(s.users, UserKey, s.members[i].userId).value in r
  {
    var us := Join(Filter(s.members, MemberPlanIs(planId), MemberMatches, true), s.users, MemberUser, UserKey);
    JoinFiltered(s.members, MemberPlanIs(planId), MemberMatches, s.users, MemberUser, UserKey);
    var r := SortDesc(us, UserCreated);
    assert forall u :: u in r <==> u in us by {
      assert forall u :: u in r <==> u in multiset(us);
    }
    r
  }

  // ---------------------------------------------------------------- properties

  /** A plan is shared (PlanRepo.IsShared) exactly when it has a membership row. */
  lemma SharedIffCounted(members: seq<Member>, planId: Id)
    ensures PlanRepo.IsShared(members, planId) <==> GetUsersCount(members, planId) > 0
  {
  }

  /** Create adds one to the plan's users count and leaves every other plan's count alone. */
  lemma UsersCountAfterCreate(members: seq<Member>, planId: Id, userId: Id, at: nat, p: Id)
    ensures GetUsersCount(members + [Member(planId, userId, at)], p)
         == GetUsersCount(members, p) + (if p == planId then 1 else 0)
  {
    CountConcat(members, [Member(planId, userId, at)], MemberPlanIs(p), MemberMatches);
    CountSingle(Member(planId, userId, at), MemberPlanIs(p), MemberMatches);
  }

  /** Delete lowers the plan's users count by the number of rows it removed. */
  lemma UsersCountAfterDelete(members: seq<Member>, planId: Id, userId: Id)
    ensures GetUsersCount(Filter(members, MemberIs(planId, userId), MemberMatches, false), planId)
         == GetUsersCount(members, planId) - Count(members, MemberIs(planId, userId), MemberMatches)
  {
    CountAfterDelete(members, MemberIs(planId, userId), MemberPlanIs(planId), MemberMatches);
  }

  /** Create adds one to the owner's shared-plans count when the plan exists, and nothing otherwise. */
  lemma PlansCountAfterCreate(members: seq<Member>, plans: seq<Plan>, planId: Id, userId: Id, at: nat, owner: Id)
    ensures GetPlansCount(members + [Member(planId, userId, at)], plans, owner)
         == GetPlansCount(members, plans, owner)
          + (match Lookup(plans, PlanKey, planId) case Some(p) => if p.userId == owner then 1 else 0 case None => 0)
  {
    CountJoinAppend(members, Member(planId, userId, at), plans, MemberPlan, PlanKey, OwnerIs(owner), PlanMatches);
  }

  /**
   * GetPlansCount counts membership rows: one plan of user 7 shared with
   * users 2 and 3 counts twice.
   */
  lemma PlansCountCountsRows()
    ensures var plans := [Plan(1, 7, None, Main, Open, 0, None, None, Progress(0, 0), 0, None)];
      GetPlansCount([Member(1, 2, 1), Member(1, 3, 2)], plans, 7) == 2
  {
    var p := Plan(1, 7, None, Main, Open, 0, None, None, Progress(0, 0), 0, None);
    PlansCountAfterCreate([], [p], 1, 2, 1, 7);
    PlansCountAfterCreate([Member(1, 2, 1)], [p], 1, 3, 2, 7);
    assert [Member(1, 2, 1)] + [Member(1, 3, 2)] == [Member(1, 2, 1), Member(1, 3, 2)];
  }
}
