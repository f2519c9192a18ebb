/**
 * UserService: accounts and devices. A first launch creates an anonymous
 * user bound to its device; verifying a one-time password (OTP) for an email
 * either gives the caller that email (Claim) or, when another account owns
 * the email, merges the caller into it (Merge): the caller's plans and
 * current device move over and the caller's row is deleted.
 *
 * The email provider is outside the model: what it answers (the OTP status,
 * the verification sid) is a parameter. Config.TestEmails, Config.TestSID and
 * Config.TestOTP form a TestConfig.
 */
module UserService {
  import opened Errors
  import opened Rows
  import opened Schema
  import PlanRepo
  import UserRepo
  import DeviceRepo
  import SuggestedEmailsRepo

  /** The test accounts whose OTP is fixed: no email is sent for them. */
  datatype TestConfig = TestConfig(emails: seq<string>, sid: string, otp: string)

  /** The number of devices an account keeps; a merge into an account with that many evicts its oldest. */
  const MaxDevices := 5

  // ---------------------------------------------------------------- OTP

  /** The test bypass: a test email presented with the test sid and the test OTP. */
  predicate TestApproved(config: TestConfig, email: string, sid: string, otp: string)
  {
    email in config.emails && sid == config.sid && otp == config.otp
  }

  /** The OTP status VerifyOtp acts on: "approved" under the bypass, otherwise what the provider answers. */
  function OtpStatus(config: TestConfig, email: string, sid: string, otp: string, provider: string): (r: string)
    ensures TestApproved(config, email, sid, otp) ==> r == "approved"
    ensures !TestApproved(config, email, sid, otp) ==> r == provider
  {
    if TestApproved(config, email, sid, otp) then "approved" else provider
  }

  /** SendMeOtp: the test sid for a test email, otherwise the sid the provider hands back (null when it failed). */
  function SendMeOtp(config: TestConfig, email: string, sent: Option<string>): (r: Option<string>)
    ensures email in config.emails ==> r == Some(config.sid)
    ensures email !in config.emails ==> r == sent
  {
    if email in config.emails then Some(config.sid) else sent
  }

  // ---------------------------------------------------------------- login

  /** What VerifyOtp does with the account that owns the email. */
  datatype Login =
    | Claim              // no account has the email: the caller takes it
    | Stay               // the caller already owns the email: nothing to merge
    | Merge(target: Id)  // another account owns it: the caller is merged into that one

  /**
   * The choice as written: any account found by the email is merged into,
   * the caller's own included.
   */
  function LoginActionAsWritten(owner: Option<User>, caller: Id): (a: Login)
    ensures a.Claim? <==> owner.None?
    ensures a.Merge? ==> a.target == owner.value.id
    ensures !a.Stay?
  {
    if owner.None? then Claim else Merge(owner.value.id)
  }

  /** The corrected choice: a caller who already owns the email stays as it is. */
  function LoginAction(owner: Option<User>, caller: Id): (a: Login)
    ensures a.Claim? <==> owner.None?
    ensures a.Stay? <==> owner.Some? && owner.value.id == caller
    ensures a.Merge? ==> a.target == owner.value.id && a.target != caller
  {
    if owner.None? then Claim
    else if owner.value.id == caller then Stay
    else Merge(owner.value.id)
  }

  /** The corrected choice differs from the one as written exactly when the caller already owns the email. */
  lemma LoginCorrectionOnlyForOwner(owner: Option<User>, caller: Id)
    ensures LoginAction(owner, caller) != LoginActionAsWritten(owner, caller) <==> owner.Some? && owner.value.id == caller
  {
  }

  /** newUserId: the caller's id unless the caller was merged into another account. */
  function NewUserId(a: Login, caller: Id): Id
  {
    if a.Merge? then a.target else caller
  }

  /** The users table after the login step of VerifyOtp. */
  function UsersAfterLogin(users: seq<User>, a: Login, caller: Id, email: string, at: nat): seq<User>
  {
    match a
    case Claim => UpdateAll(users, UserRepo.SetEmail(caller, email, at), UserRepo.Updated)
    case Stay => users
    case Merge(_) => Filter(users, UserIdIs(caller), UserMatches, false)
  }

  /**
   * The device a merge evicts: the last of the target's devices newest
   * first, its oldest, when the target already has MaxDevices of them.
   */
  function Oldest(devices: seq<Device>, target: Id): (r: Option<Id>)
    ensures r.Some? <==> Count(devices, DeviceOwnerIs(target), DeviceMatches) >= MaxDevices
    ensures r.Some? ==> exists d :: (d in devices && d.userId == target && d.id == r.value
      && forall x :: x in devices && x.userId == target ==> d.createdAt <= x.createdAt)
  {
    var mine := DeviceRepo.GetMany(devices, target);
    if |mine| >= MaxDevices then
      DeviceRepo.LastIsOldest(devices, target);
      Some(mine[|mine| - 1].id)
    else None
  }

  /** The eviction step of a merge. */
  function Evicted(devices: seq<Device>, target: Id): seq<Device>
  {
    match Oldest(devices, target)
    case Some(id) => Filter(devices, DeviceIdIs(id), DeviceMatches, false)
    case None => devices
  }

  /** The devices after a merge: eviction, the current device moved to the target, the caller's remaining devices deleted with the caller. */
  function MergedDevices(devices: seq<Device>, caller: Id, target: Id, deviceId: Id, at: nat): seq<Device>
  {
    var moved := UpdateAll(Evicted(devices, target), DeviceRepo.SetOwner(deviceId, target, at), DeviceRepo.Updated);
    Filter(moved, DeviceOwnerIs(caller), DeviceMatches, false)
  }

  // ---------------------------------------------------------------- operations

  /**
   * Create: a new anonymous user, and its device; every earlier device with
   * the same fingerprint is deleted first, so the fingerprint names one device.
   */
  method Create(db: Db, device: DeviceRepo.DeviceIn) returns (userId: Id, deviceId: Id)
    requires db.Valid()
    modifies db
    ensures db.Valid()
    ensures forall i :: 0 <= i < |old(db.users)| ==> old(db.users)[i].id != userId
    ensures db.users == old(db.users) + [User(userId, None, None, old(db.clock), None)]
    ensures db.devices == Filter(old(db.devices), FingerprintIs(device.fingerprint), DeviceMatches, false)
                          + [DeviceRepo.NewDevice(deviceId, userId, device, old(db.clock) + 1)]
    ensures Count(db.devices, FingerprintIs(device.fingerprint), DeviceMatches) == 1
    ensures DeviceRepo.NewDevice(deviceId, userId, device, old(db.clock) + 1) in DeviceRepo.GetMany(db.devices, userId)
    ensures db.Snapshot() == old(db.Snapshot()).(users := db.users, devices := db.devices)
  {
    userId := UserRepo.Create(db);
    var removed := DeviceRepo.DeleteByFingerprint(db, device.fingerprint);
    ghost var kept := db.devices;
    deviceId := DeviceRepo.Create(db, userId, device);
    FingerprintOnce(kept, DeviceRepo.NewDevice(deviceId, userId, device, old(db.clock) + 1));
  }

  /**
   * VerifyOtp: refused unless the OTP status is "approved"; then the login
   * step (corrected for a caller who already owns the email). Returns
   * newUserId; the token built from it is not modelled.
   */
  method VerifyOtp(db: Db, config: TestConfig, caller: Id, deviceId: Id, email: string, sid: string, otp: string, provider: string)
    returns (r: Result<Id>)
    requires db.Valid()
    modifies db
    ensures db.Valid()
    ensures var status := OtpStatus(config, email, sid, otp, provider);
      status != "approved" ==> r == Failure(ArgumentError("OTP not verified for " + email + ", status: " + status)) && unchanged(db)
    ensures OtpStatus(config, email, sid, otp, provider) == "approved" ==>
      var a := LoginAction(UserRepo.GetOneByEmail(old(db.users), email), caller);
      && r == Ok(NewUserId(a, caller))
      && db.users == UsersAfterLogin(old(db.users), a, caller, email, old(db.clock))
      && (a.Merge? ==>
            && db.plans == PlanRepo.Reassigned(old(db.plans), caller, a.target, old(db.clock))
            && db.devices == MergedDevices(old(db.devices), caller, a.target, deviceId, old(db.clock))
            && db.members == Filter(old(db.members), MemberUserIs(caller), MemberMatches, false))
      && (!a.Merge? ==> db.plans == old(db.plans) && db.devices == old(db.devices) && db.members == old(db.members))
    ensures db.tasks == old(db.tasks) && db.emails == old(db.emails) && db.clock == old(db.clock)
  {
    var status := OtpStatus(config, email, sid, otp, provider);
    if status != "approved" {
      return Failure(ArgumentError("OTP not verified for " + email + ", status: " + status));
    }
    var a := LoginAction(UserRepo.GetOneByEmail(db.users, email), caller);
    match a {
      case Claim =>
        UserRepo.UpdateEmail(db, caller, email);
      case Stay =>
      case Merge(target) =>
        MergeInto(db, caller, deviceId, target);
    }
    r := Ok(NewUserId(a, caller));
  }

  /** The merge step of VerifyOtp, lines in source order, for a target other than the caller. */
  method MergeInto(db: Db, caller: Id, deviceId: Id, target: Id)
    requires db.Valid() && caller != target
    modifies db`plans, db`tasks, db`members, db`users, db`devices
    ensures db.Valid()
    ensures db.plans == PlanRepo.Reassigned(old(db.plans), caller, target, db.clock)
    ensures db.devices == MergedDevices(old(db.devices), caller, target, deviceId, db.clock)
    ensures db.users == Filter(old(db.users), UserIdIs(caller), UserMatches, false)
    ensures db.members == Filter(old(db.members), MemberUserIs(caller), MemberMatches, false)
    ensures db.tasks == old(db.tasks) && db.emails == old(db.emails)
  {
    ghost var plans, tasks, members, at := db.plans, db.tasks, db.members, db.clock;
    MoveOwnership(db, caller, deviceId, target);
    ReassignLeavesNoPlan(plans, tasks, members, caller, target, at);
    var removed := UserRepo.Delete(db, caller);
  }

  /** The ownership lines of the merge: the caller's plans, then the current device, go to the target. */
  method MoveOwnership(db: Db, caller: Id, deviceId: Id, target: Id)
    requires db.Valid()
    modifies db`plans, db`devices
    ensures db.Valid()
    ensures db.plans == PlanRepo.Reassigned(old(db.plans), caller, target, db.clock)
    ensures db.devices == UpdateAll(Evicted(old(db.devices), target), DeviceRepo.SetOwner(deviceId, target, db.clock), DeviceRepo.Updated)
    ensures db.Snapshot() == old(db.Snapshot()).(plans := db.plans, devices := db.devices)
  {
    var moved := PlanRepo.UpdateUserId(db, caller, target);
    MoveDevice(db, deviceId, target);
  }

  /** The device lines of the merge: the target's oldest device evicted when it has MaxDevices, then the current device moved to the target. */
  method MoveDevice(db: Db, deviceId: Id, target: Id)
    requires db.Valid()
    modifies db`devices
    ensures db.Valid()
    ensures db.devices == UpdateAll(Evicted(old(db.devices), target), DeviceRepo.SetOwner(deviceId, target, db.clock), DeviceRepo.Updated)
  {
    EvictOldest(db, target);
    var updated := DeviceRepo.UpdateUserId(db, deviceId, target);
  }

  /** The eviction lines of the merge: the target's oldest device goes when it has MaxDevices devices. */
  method EvictOldest(db: Db, target: Id)
    requires db.Valid()
    modifies db`devices
    ensures db.Valid()
    ensures db.devices == Evicted(old(db.devices), target)
  {
    var oldest := Oldest(db.devices, target);
    if oldest.Some? {
      var evicted := DeviceRepo.Delete(db, oldest.value);
    }
  }

  /** UpdateName: the caller's name. */
  method UpdateName(db: Db, caller: Id, name: string)
    requires db.Valid()
    modifies db`users
    ensures db.Valid()
    ensures db.users == UpdateAll(old(db.users), UserRepo.SetName(caller, name, db.clock), UserRepo.Updated)
  {
    UserRepo.UpdateName(db, caller, name);
  }

  /** Logout: Unauthorized unless the device exists and is the caller's; then exactly that device goes. */
  method Logout(db: Db, caller: Id, deviceId: Id) returns (o: Outcome)
    requires db.Valid()
    modifies db`devices
    ensures db.Valid()
    ensures var d := DeviceRepo.GetOne(old(db.devices), deviceId);
      o == if d.None? || d.value.userId != caller then Fail(Unauthorized("Invalid deviceId")) else Done
    ensures o.Fail? ==> db.devices == old(db.devices)
    ensures o.Done? ==> db.devices == Filter(old(db.devices), DeviceIdIs(deviceId), DeviceMatches, false)
    ensures o.Done? ==> |db.devices| == |old(db.devices)| - 1
  {
    var device := DeviceRepo.GetOne(db.devices, deviceId);
    if device.None? || device.value.userId != caller {
      return Fail(Unauthorized("Invalid deviceId"));
    }
    ghost var before := db.devices;
    ghost var k :| 0 <= k < |before| && before[k] == device.value;
    DeleteOneRow(before, DeviceKey, db.nextId, DeviceIdIs(deviceId), DeviceMatches, k);
    var removed := DeviceRepo.Delete(db, deviceId);
    o := Done;
  }

  /** DeleteSuggestedEmail: Unauthorized unless the row exists and is the caller's; then exactly that row goes. */
  method DeleteSuggestedEmail(db: Db, caller: Id, id: Id) returns (o: Outcome)
    requires db.Valid()
    modifies db`emails
    ensures db.Valid()
    ensures var e := SuggestedEmailsRepo.GetOne(old(db.emails), id);
      o == if e.None? || e.value.userId != caller then Fail(Unauthorized("Invalid suggestedEmailId")) else Done
    ensures o.Fail? ==> db.emails == old(db.emails)
    ensures o.Done? ==> db.emails == Filter(old(db.emails), EmailIdIs(id), EmailMatches, false)
    ensures o.Done? ==> |db.emails| == |old(db.emails)| - 1
  {
    var row := SuggestedEmailsRepo.GetOne(db.emails, id);
    if row.None? || row.value.userId != caller {
      return Fail(Unauthorized("Invalid suggestedEmailId"));
    }
    ghost var before := db.emails;
    ghost var k :| 0 <= k < |before| && before[k] == row.value;
    DeleteOneRow(before, EmailKey, db.nextId, EmailIdIs(id), EmailMatches, k);
    var removed := SuggestedEmailsRepo.Delete(db, id);
    o := Done;
  }

  /**
   * Delete: the caller's account. The OTP gate applies to the caller's own
   * email; on approval every suggested email row with that address goes,
   * whoever it belongs to, then the caller's row with its cascade.
   */
  method Delete(db: Db, config: TestConfig, caller: Id, sid: string, otp: string, provider: string) returns (o: Outcome)
    requires db.Valid()
    modifies db`users, db`plans, db`tasks, db`members, db`devices, db`emails
    ensures db.Valid()
    ensures UserRepo.GetOne(old(db.users), caller).None? ==> o == Fail(NullReference) && unchanged(db)
    ensures UserRepo.GetOne(old(db.users), caller).Some? ==>
      var email := UserRepo.GetOne(old(db.users), caller).value.email;
      var status := if email.Some? then OtpStatus(config, email.value, sid, otp, provider) else provider;
      && (status != "approved" ==>
            o == Fail(ArgumentError("OTP not approved for " + (if email.Some? then email.value else "unknown") + ", status: " + status))
            && unchanged(db))
      && (status == "approved" ==>
            && o == Done
            && db.emails == (if email.Some? then Filter(old(db.emails), EmailTextIs(email.value), EmailMatches, false) else old(db.emails))
            && db.users == Filter(old(db.users), UserIdIs(caller), UserMatches, false)
            && db.plans == Filter(old(db.plans), OwnerIs(caller), PlanMatches, false)
            && db.tasks == Filter(old(db.tasks), TaskPlanAmong(UserRepo.OwnedPlanIds(old(db.plans), caller)), TaskMatches, false)
            && db.members == Filter(Filter(old(db.members), MemberPlanAmong(UserRepo.OwnedPlanIds(old(db.plans), caller)), MemberMatches, false),
                                    MemberUserIs(caller), MemberMatches, false)
            && db.devices == Filter(old(db.devices), DeviceOwnerIs(caller), DeviceMatches, false))
  {
    var user := UserRepo.GetOne(db.users, caller);
    if user.None? {
      return Fail(NullReference);
    }
    var email := user.value.email;
    var status := if email.Some? then OtpStatus(config, email.value, sid, otp, provider) else provider;
    if status != "approved" {
      return Fail(ArgumentError("OTP not approved for " + (if email.Some? then email.value else "unknown") + ", status: " + status));
    }
    Erase(db, caller, email);
    o := Done;
  }

  /** The statements of Delete once the OTP is approved: the suggested emails with the caller's address, then the caller's row and its cascade. */
  method Erase(db: Db, caller: Id, email: Option<string>)
    requires db.Valid()
    modifies db`users, db`plans, db`tasks, db`members, db`devices, db`emails
    ensures db.Valid()
    ensures db.emails == (if email.Some? then Filter(old(db.emails), EmailTextIs(email.value), EmailMatches, false) else old(db.emails))
    ensures db.users == Filter(old(db.users), UserIdIs(caller), UserMatches, false)
    ensures db.plans == Filter(old(db.plans), OwnerIs(caller), PlanMatches, false)
    ensures db.tasks == Filter(old(db.tasks), TaskPlanAmong(UserRepo.OwnedPlanIds(old(db.plans), caller)), TaskMatches, false)
    ensures db.members == Filter(Filter(old(db.members), MemberPlanAmong(UserRepo.OwnedPlanIds(old(db.plans), caller)), MemberMatches, false),
                                 MemberUserIs(caller), MemberMatches, false)
    ensures db.devices == Filter(old(db.devices), DeviceOwnerIs(caller), DeviceMatches, false)
  {
    if email.Some? {
      var gone := SuggestedEmailsRepo.DeleteManyByEmail(db, email.value);
    }
    var removed := UserRepo.Delete(db, caller);
  }

  // ---------------------------------------------------------------- properties

  /** Without asking the provider, the status is "approved" exactly under the test bypass. */
  lemma ApprovedWithoutProvider(config: TestConfig, email: string, sid: string, otp: string)
    ensures TestApproved(config, email, sid, otp) <==> forall provider :: OtpStatus(config, email, sid, otp, provider) == "approved"
  {
    if !TestApproved(config, email, sid, otp) {
      assert OtpStatus(config, email, sid, otp, "pending") != "approved";
    }
  }

  /** Appending a device whose fingerprint no row has leaves exactly one row with that fingerprint. */
  lemma FingerprintOnce(devices: seq<Device>, d: Device)
    requires forall i :: 0 <= i < |devices| ==> devices[i].fingerprint != d.fingerprint
    ensures Count(devices + [d], FingerprintIs(d.fingerprint), DeviceMatches) == 1
  {
    CountZero(devices, FingerprintIs(d.fingerprint), DeviceMatches);
    CountConcat(devices, [d], FingerprintIs(d.fingerprint), DeviceMatches);
    assert Count([d], FingerprintIs(d.fingerprint), DeviceMatches) == 1;
  }

  /**
   * After UpdateUserId(from, to) with from != to, no plan is left with from,
   * so deleting from afterwards removes none of the moved plans and none of
   * their tasks or memberships.
   */
  lemma ReassignLeavesNoPlan(plans: seq<Plan>, tasks: seq<Task>, members: seq<Member>, from: Id, to: Id, at: nat)
    requires from != to
    ensures var r := PlanRepo.Reassigned(plans, from, to, at);
      && UserRepo.OwnedPlanIds(r, from) == {}
      && Filter(r, OwnerIs(from), PlanMatches, false) == r
      && Filter(tasks, TaskPlanAmong({}), TaskMatches, false) == tasks
      && Filter(members, MemberPlanAmong({}), MemberMatches, false) == members
  {
    PlanRepo.ReassignedRows(plans, from, to, at);
    var r := PlanRepo.Reassigned(plans, from, to, at);
    assert forall p :: p in r ==> p.userId != from;
    FilterNone(r, OwnerIs(from), PlanMatches);
    FilterNone(tasks, TaskPlanAmong({}), TaskMatches);
    FilterNone(members, MemberPlanAmong({}), MemberMatches);
  }

  /**
   * After a successful login the returned user exists and has the email,
   * provided the caller had a user row.
   */
  lemma LoginLandsOnUser(users: seq<User>, bound: nat, caller: Id, email: string, at: nat)
    requires Keyed(users, UserKey, bound) && UserRepo.GetOne(users, caller).Some?
    ensures var a := LoginAction(UserRepo.GetOneByEmail(users, email), caller);
      var u := UserRepo.GetOne(UsersAfterLogin(users, a, caller, email, at), NewUserId(a, caller));
      u.Some? && u.value.email == Some(email)
  {
    var owner := UserRepo.GetOneByEmail(users, email);
    var a := LoginAction(owner, caller);
    var after := UsersAfterLogin(users, a, caller, email, at);
    var k :| 0 <= k < |users| && users[k] == UserRepo.GetOne(users, caller).value;
    match a
    case Claim =>
      UserRepo.UpdatedAt(users, bound, k, UserRepo.SetEmail(caller, email, at));
      UsersFindAt(after, bound, k);
    case Stay =>
      var j :| 0 <= j < |users| && users[j] == owner.value;
      UsersFindAt(users, bound, j);
    case Merge(target) =>
      var j :| 0 <= j < |users| && users[j] == owner.value;
      assert users[j] in after;
      var m :| 0 <= m < |after| && after[m] == users[j];
      KeyedFilter(users, UserKey, bound, UserIdIs(caller), UserMatches, false);
      UsersFindAt(after, bound, m);
  }

  /**
   * The login step keeps emails unique: a claim gives the caller an email
   * nobody holds, staying changes nothing, a merge only removes the caller.
   */
  lemma LoginKeepsEmailsUnique(users: seq<User>, bound: nat, caller: Id, email: string, at: nat)
    requires Keyed(users, UserKey, bound) && UserRepo.EmailsUnique(users)
    ensures UserRepo.EmailsUnique(UsersAfterLogin(users, LoginAction(UserRepo.GetOneByEmail(users, email), caller), caller, email, at))
  {
    var owner := UserRepo.GetOneByEmail(users, email);
    match LoginAction(owner, caller)
    case Claim =>
      var r := UpdateAll(users, UserRepo.SetEmail(caller, email, at), UserRepo.Updated);
      forall i, j | 0 <= i < |r| && 0 <= j < |r| && i != j && r[i].email.Some?
        ensures r[i].email != r[j].email
      {
        if users[i].id == users[j].id {
          KeyedUnique(users, UserKey, bound, i, j);
        }
      }
    case Stay =>
    case Merge(_) =>
      UserRepo.DeleteKeepsEmailsUnique(users, bound, caller);
  }

  /** In a keyed users table the lookup by id finds the one row with that id. */
  lemma UsersFindAt(users: seq<User>, bound: nat, k: int)
    requires Keyed(users, UserKey, bound) && 0 <= k < |users|
    ensures UserRepo.GetOne(users, users[k].id) == Some(users[k])
  {
    var r := UserRepo.GetOne(users, users[k].id);
    var j :| 0 <= j < |users| && users[j] == r.value;
    KeyedUnique(users, UserKey, bound, j, k);
  }

  /**
   * The login step as written, for a caller who already owns the email:
   * it merges the caller into itself, deletes the caller's row, and returns
   * the id of a user that no longer exists.
   */
  lemma SelfMergeLosesUser()
    ensures var users := [User(1, Some("a@b.c"), None, 0, None)];
      var a := LoginActionAsWritten(UserRepo.GetOneByEmail(users, "a@b.c"), 1);
      && a == Merge(1)
      && UserRepo.GetOne(UsersAfterLogin(users, a, 1, "a@b.c", 0), NewUserId(a, 1)).None?
  {
    var users := [User(1, Some("a@b.c"), None, 0, None)];
    assert UserMatches(users[0], UserEmailIs("a@b.c"));
    assert Filter(users, UserIdIs(1), UserMatches, false) == [];
  }

  /**
   * A merge keeps the target's device count at d when it already had
   * MaxDevices or more, and raises it to d + 1 otherwise, provided the
   * current device exists and belonged to someone else.
   */
  lemma MergeDeviceCount(devices: seq<Device>, bound: nat, caller: Id, target: Id, deviceId: Id, at: nat)
    requires Keyed(devices, DeviceKey, bound) && caller != target
    requires DeviceRepo.GetOne(devices, deviceId).Some? && DeviceRepo.GetOne(devices, deviceId).value.userId != target
    ensures var d := Count(devices, DeviceOwnerIs(target), DeviceMatches);
      Count(MergedDevices(devices, caller, target, deviceId, at), DeviceOwnerIs(target), DeviceMatches)
        == if d >= MaxDevices then d else d + 1
  {
    var e := Evicted(devices, target);
    var x := DeviceRepo.GetOne(devices, deviceId).value;
    EvictedRows(devices, bound, target);
    assert x in e by {
      var j :| 0 <= j < |devices| && devices[j] == x;
    }
    var m :| 0 <= m < |e| && e[m] == x;
    assert e[m].id == deviceId;
    assert MergedDevices(devices, caller, target, deviceId, at)
        == Filter(UpdateAll(e, DeviceRepo.SetOwner(e[m].id, target, at), DeviceRepo.Updated), DeviceOwnerIs(caller), DeviceMatches, false);
    MovedCount(e, bound, m, caller, target, at);
    var d := Count(devices, DeviceOwnerIs(target), DeviceMatches);
    var c := Count(MergedDevices(devices, caller, target, deviceId, at), DeviceOwnerIs(target), DeviceMatches);
    assert c == Count(e, DeviceOwnerIs(target), DeviceMatches) + 1;
    if d >= MaxDevices {
      assert c == d;
    } else {
      assert c == d + 1;
    }
  }

  /** Moving device m to the target and deleting the caller's other devices adds one to the target's count. */
  lemma MovedCount(e: seq<Device>, bound: nat, m: int, caller: Id, target: Id, at: nat)
    requires Keyed(e, DeviceKey, bound) && 0 <= m < |e| && e[m].userId != target && caller != target
    ensures Count(Filter(UpdateAll(e, DeviceRepo.SetOwner(e[m].id, target, at), DeviceRepo.Updated), DeviceOwnerIs(caller), DeviceMatches, false), DeviceOwnerIs(target), DeviceMatches)
         == Count(e, DeviceOwnerIs(target), DeviceMatches) + 1
  {
    var moved := UpdateAll(e, DeviceRepo.SetOwner(e[m].id, target, at), DeviceRepo.Updated);
    DeviceRepo.OwnerCountAfterUpdate(e, bound, m, target, at);
    forall i | 0 <= i < |moved| && DeviceMatches(moved[i], DeviceOwnerIs(target))
      ensures !DeviceMatches(moved[i], DeviceOwnerIs(caller))
    {
    }
    CountWithout(moved, DeviceOwnerIs(caller), DeviceOwnerIs(target), DeviceMatches);
  }

  /** The eviction keeps the table keyed, removes one of the target's devices when it had MaxDevices, and no device of anyone else. */
  lemma EvictedRows(devices: seq<Device>, bound: nat, target: Id)
    requires Keyed(devices, DeviceKey, bound)
    ensures var e := Evicted(devices, target);
      var d := Count(devices, DeviceOwnerIs(target), DeviceMatches);
      && Keyed(e, DeviceKey, bound)
      && Count(e, DeviceOwnerIs(target), DeviceMatches) == (if d >= MaxDevices then d - 1 else d)
      && forall i :: 0 <= i < |devices| && devices[i].userId != target ==> devices[i] in e
  {
    match Oldest(devices, target)
    case Some(id) =>
      var x :| x in devices && x.userId == target && x.id == id;
      var k :| 0 <= k < |devices| && devices[k] == x;
      DeviceRepo.OwnerCountAfterDelete(devices, bound, k);
      KeyedFilter(devices, DeviceKey, bound, DeviceIdIs(id), DeviceMatches, false);
      forall i | 0 <= i < |devices| && devices[i].userId != target
        ensures !DeviceMatches(devices[i], DeviceIdIs(id))
      {
        assert DeviceKey(devices[i]) != DeviceKey(devices[k]);
      }
    case None =>
  }
}
