# Mahaam core, modelled in Dafny

Mahaam is a to-do backend. A user owns **plans**. Each plan holds ordered
**tasks** and sits in one of two lists, Main or Archived. A plan can be
shared with other users (**plan members**). An anonymous user created for a
device logs in by e-mail one-time password. When the e-mail already belongs
to another account, the device's account is merged into it.

This project models the feature services and repositories behind those
operations (plans, tasks, plan members, users, devices, suggested e-mails)
and the request validator. It proves what each operation does to the
database and the invariants it keeps.

## Structure

- **The database.** `Schema.Db` is a class whose six table fields
  (`plans`, `tasks`, `members`, `users`, `devices`, `emails`) are sequences
  of rows. Each repository statement is a method that reassigns the tables
  it writes, with a `modifies` frame naming only those tables.
- **Ids and time.** `Guid.NewGuid()` is a counter (`Db.NewId`): every id
  handed out is larger than every id in any table. `current_timestamp` is a
  counter `clock` (`Db.Tick`).
- **Table invariant.** `Db.Valid()` says every table except plan_members is
  keyed by a unique id below the counter. It also says `(user_id, email)` is unique in
  suggested_emails, the unique constraint behind `ON CONFLICT DO NOTHING`.
- **Transactions.** A `TransactionScope` that is disposed without
  `Complete()` rolls back. This is `Schema.Db.Restore`: the service keeps a
  snapshot when the scope opens and restores it when a later step fails.
- **Row operations.** `Rows` defines the SQL shapes once, generically:
  - `Filter`: `WHERE` / `DELETE WHERE`;
  - `Count`: `COUNT(1)`;
  - `UpdateAll`: `UPDATE … SET … WHERE`;
  - `First`: the single-row read (`QuerySingleOrDefault`), taking the first match;
  - `SortDesc`: `ORDER BY … DESC`.
  
  `UpdateEach` and `DeleteWhere` are the loop methods that perform them in
  place.
- **Ordering.** `SortOrder` holds the `sort_order` arithmetic that plans and
  tasks share: the `CASE` move, the compaction after a delete, and the
  notion of a **dense** partition, whose orders are exactly `0 … n-1`.
- **Error results.** An error the source throws is a `Fail`/`Failure`
  value.
  - `InputError` stands for InputException.
  - `LogicError(key)` stands for LogicException; it keeps the exception's
    first argument.
  - `Unauthorized` stands for UnauthorizedException.
  - `NotFound` stands for NotFoundException.
  - `ArgumentError` stands for ArgumentException.
  - `NullReference` is a dereference of a missing row.
  
  The request's user and device ids (`Req.UserId`, `Req.DeviceId`) are
  parameters.

`PlanRepo.UpdateUserId` shifts moved plans by the count of **all** of the
new owner's plans (PlanRepo.cs:165), not by a per-type count;
`PlanRepo.ReassignBreaksTypeDensity` shows the consequence.

## Model

| member | source | states |
|---|---|---|
| SortOrder.MoveKeepsDense | mahaam-api-cs/Src/Feat/Plan/PlanRepo.cs:128-143 | the CASE move of a dense partition with both indices below n is dense again, and the row that was at oldOrder is at newOrder |
| SortOrder.MoveToSelf | mahaam-api-cs/Src/Feat/Plan/PlanRepo.cs:128-143 | moving an order to itself changes no order |
| SortOrder.RemoveKeepsDense | mahaam-api-cs/Src/Feat/Plan/PlanRepo.cs:119-126 | removing one order p and decrementing the orders above it leaves a dense partition |
| SortOrder.InsertKeepsDense | mahaam-api-cs/Src/Feat/Plan/PlanRepo.cs:24-41 | adding the partition's size as a new order keeps it dense |
| SortOrder.DenseIsRange | mahaam-api-cs/Src/Feat/Plan/PlanRepo.cs:128-143 | a partition is dense exactly when its orders are distinct and their set is {0 … n-1} |
| SortOrder.AsWrittenGuardAdmitsGap | mahaam-api-cs/Src/Feat/Plan/PlanService.cs:139-140 | the written guard lets newOrder == count through, and the move then leaves a gap in a dense partition |
| SortOrder.AsWrittenGuardAdmitsNegative | mahaam-api-cs/Src/Feat/Plan/PlanService.cs:139-140 | the written guard lets a negative oldOrder through, and the move then breaks density |
| SortOrder.GuardedMoveKeepsDense | mahaam-api-cs/Src/Feat/Plan/PlanService.cs:136-143 | every move the corrected guard admits keeps a dense partition dense |
| SortOrder.GuardRefinesAsWritten | mahaam-api-cs/Src/Feat/Plan/PlanService.cs:139-140 | the corrected guard rejects everything the written guard rejects |
| Schema.Db.Restore | mahaam-api-cs/Src/Feat/Task/TaskService.cs:41-46 | rolling back makes every table equal to the snapshot taken when the scope opened, and the table invariant holds |
| PlanRepo.GetCount | mahaam-api-cs/Src/Feat/Plan/PlanRepo.cs:153-158 | the count is the size of the (user, type) partition and no larger than the table |
| PlanRepo.IsShared | mahaam-api-cs/Src/Feat/Plan/PlanRepo.cs:49-68 | a plan is shared exactly when some plan_members row names it |
| PlanRepo.GetOne | mahaam-api-cs/Src/Feat/Plan/PlanRepo.cs:49-68 | null exactly when no plan has the id; otherwise the plan with that id, joined with its owner and its shared flag |
| PlanRepo.GetMany | mahaam-api-cs/Src/Feat/Plan/PlanRepo.cs:74-94 | the user's plans of that type, each exactly once (a permutation), sorted by sort_order descending, each joined with its owner and shared flag |
| PlanRepo.DonePercent | mahaam-api-cs/Src/Feat/Plan/PlanRepo.cs:102-112 | the done count never exceeds the task count, which never exceeds the table |
| PlanRepo.Create | mahaam-api-cs/Src/Feat/Plan/PlanRepo.cs:24-41 | appends one Main, Open plan with done_percent `Progress(0, 0)` with a fresh id whose sort_order is the number of the user's Main plans before; no other table changes |
| PlanRepo.CreateKeepsDense | mahaam-api-cs/Src/Feat/Plan/PlanRepo.cs:24-41 | after Create every partition is still dense, and the user's Main partition gained exactly its old size |
| PlanRepo.Update | mahaam-api-cs/Src/Feat/Plan/PlanRepo.cs:43-47 | only title, starts, ends and updated_at of the plan with that id change |
| PlanRepo.DetailsKeepOrders | mahaam-api-cs/Src/Feat/Plan/PlanRepo.cs:43-47 | updating details or done_percent leaves every partition's orders as they were |
| PlanRepo.Delete | mahaam-api-cs/Src/Feat/Plan/PlanRepo.cs:96-100 | removes the plan and, by the foreign-key cascade, its tasks and its members |
| PlanRepo.UpdateDonePercent | mahaam-api-cs/Src/Feat/Plan/PlanRepo.cs:102-112 | sets only that plan's done_percent to (done tasks, all tasks) of that plan |
| PlanRepo.RemoveFromOrder | mahaam-api-cs/Src/Feat/Plan/PlanRepo.cs:119-126 | the plans table becomes the compaction around plan id; see CompactedRows |
| PlanRepo.CompactedRows | mahaam-api-cs/Src/Feat/Plan/PlanRepo.cs:119-126 | exactly the user's plans of the same type with a greater sort_order drop by one; the plan itself and every other row are unchanged |
| PlanRepo.DeleteKeepsDense | mahaam-api-cs/Src/Feat/Plan/PlanRepo.cs:119-126 | compacting around a plan and then deleting it leaves every partition dense |
| PlanRepo.UpdateOrder | mahaam-api-cs/Src/Feat/Plan/PlanRepo.cs:128-143 | applies the CASE move to the (user, type) partition and changes no other plan |
| PlanRepo.MoveToSelfIsIdentity | mahaam-api-cs/Src/Feat/Plan/PlanRepo.cs:128-143 | oldOrder == newOrder leaves the table unchanged |
| PlanRepo.MoveKeepsDense | mahaam-api-cs/Src/Feat/Plan/PlanRepo.cs:128-143 | with both indices inside the partition, every partition stays dense and the moved plan sits at newOrder |
| PlanRepo.UpdateType | mahaam-api-cs/Src/Feat/Plan/PlanRepo.cs:145-151 | sets the plan's type and gives it the number of the user's other plans of the new type as sort_order (corrected; see Findings) |
| PlanRepo.RetypeKeepsDense | mahaam-api-cs/Src/Feat/Plan/PlanRepo.cs:145-151 | RemoveFromOrder followed by UpdateType keeps every partition dense |
| PlanRepo.RetypeAgreesOnTypeChange | mahaam-api-cs/Src/Feat/Plan/PlanRepo.cs:145-151 | when the type really changes, the corrected and the written UpdateType give the same table |
| PlanRepo.RetypeAsWrittenLeavesGap | mahaam-api-cs/Src/Feat/Plan/PlanRepo.cs:145-151 | retyping a user's only Main plan to Main, as written, leaves the Main partition not dense |
| PlanRepo.UpdateUserId | mahaam-api-cs/Src/Feat/Plan/PlanRepo.cs:160-168 | returns the number of plans moved and reassigns exactly the old user's plans |
| PlanRepo.ReassignedRows | mahaam-api-cs/Src/Feat/Plan/PlanRepo.cs:160-168 | each moved plan gets the new owner and sort_order plus the count of all the new owner's plans, keeping type and title; every other row is unchanged |
| PlanRepo.ReassignKeepsRelativeOrder | mahaam-api-cs/Src/Feat/Plan/PlanRepo.cs:160-168 | two moved plans keep their relative order |
| PlanRepo.ReassignLandsAbove | mahaam-api-cs/Src/Feat/Plan/PlanRepo.cs:160-168 | from a dense table, every moved plan sorts above every plan the new owner already had |
| PlanRepo.ReassignBreaksTypeDensity | mahaam-api-cs/Src/Feat/Plan/PlanRepo.cs:160-168 | a dense table exists whose new owner's Main partition is not dense after the move |
| TaskRepo.GetCount | mahaam-api-cs/Src/Feat/Task/TaskRepo.cs:96-100 | the count is the number of the plan's tasks |
| TaskRepo.GetAll | mahaam-api-cs/Src/Feat/Task/TaskRepo.cs:23-28 | exactly the plan's tasks, each once (a permutation), sorted by sort_order descending |
| TaskRepo.GetOne | mahaam-api-cs/Src/Feat/Task/TaskRepo.cs:30-34 | null exactly when no task has the id; otherwise that task |
| TaskRepo.Create | mahaam-api-cs/Src/Feat/Task/TaskRepo.cs:36-44 | appends one not-done task with a fresh id whose sort_order is the plan's task count before; no other table changes |
| TaskRepo.CreateKeepsDense | mahaam-api-cs/Src/Feat/Task/TaskRepo.cs:36-44 | after Create every plan's tasks are still dense and the plan gained exactly its old count |
| TaskRepo.DeleteOne | mahaam-api-cs/Src/Feat/Task/TaskRepo.cs:46-51 | NotFound exactly when no task has the id; otherwise that task is removed |
| TaskRepo.DeleteAll | mahaam-api-cs/Src/Feat/Task/TaskRepo.cs:53-57 | removes exactly the plan's tasks |
| TaskRepo.DeleteAllKeepsDense | mahaam-api-cs/Src/Feat/Task/TaskRepo.cs:53-57 | afterwards the plan has no tasks, other plans' orders are unchanged, and all stay dense |
| TaskRepo.UpdateDone | mahaam-api-cs/Src/Feat/Task/TaskRepo.cs:59-65 | NotFound exactly when no task has the id; sets done and updated_at of that task |
| TaskRepo.UpdateTitle | mahaam-api-cs/Src/Feat/Task/TaskRepo.cs:67-73 | NotFound exactly when no task has the id; sets title and updated_at of that task |
| TaskRepo.UpdatedAt | mahaam-api-cs/Src/Feat/Task/TaskRepo.cs:59-73 | an update by id changes only that row, and only its done or title and updated_at |
| TaskRepo.UpdateMissingIsIdentity | mahaam-api-cs/Src/Feat/Task/TaskRepo.cs:59-73 | an update of a missing id changes nothing |
| TaskRepo.FieldsKeepOrders | mahaam-api-cs/Src/Feat/Task/TaskRepo.cs:59-73 | setting done or title leaves every plan's task orders unchanged |
| TaskRepo.UpdateOrderBeforeDelete | mahaam-api-cs/Src/Feat/Task/TaskRepo.cs:75-80 | the tasks table becomes the compaction around the task; see CompactedRows |
| TaskRepo.CompactedRows | mahaam-api-cs/Src/Feat/Task/TaskRepo.cs:75-80 | exactly the plan's tasks with a greater sort_order drop by one; the task itself and other plans' tasks are unchanged |
| TaskRepo.DeleteKeepsDense | mahaam-api-cs/Src/Feat/Task/TaskRepo.cs:75-80 | compacting around a task and then deleting it leaves every plan's tasks dense |
| TaskRepo.UpdateOrder | mahaam-api-cs/Src/Feat/Task/TaskRepo.cs:82-94 | applies the CASE move to the plan's tasks and to no other row |
| TaskRepo.MoveToSelfIsIdentity | mahaam-api-cs/Src/Feat/Task/TaskRepo.cs:82-94 | oldOrder == newOrder leaves the table unchanged |
| TaskRepo.MoveKeepsDense | mahaam-api-cs/Src/Feat/Task/TaskRepo.cs:82-94 | with both indices inside the plan's tasks, every plan stays dense and the moved task sits at newOrder |
| PlanMembersRepo.Create | mahaam-api-cs/Src/Feat/Plan/PlanMembersRepo.cs:19-24 | appends one membership row (plan, user) |
| PlanMembersRepo.UsersCountAfterCreate | mahaam-api-cs/Src/Feat/Plan/PlanMembersRepo.cs:19-24 | adding a member raises that plan's user count by one and no other plan's |
| PlanMembersRepo.Delete | mahaam-api-cs/Src/Feat/Plan/PlanMembersRepo.cs:26-30 | removes exactly the (plan, user) rows and returns how many there were |
| PlanMembersRepo.UsersCountAfterDelete | mahaam-api-cs/Src/Feat/Plan/PlanMembersRepo.cs:26-30 | the plan's user count drops by the number of rows removed |
| PlanMembersRepo.GetOtherPlans | mahaam-api-cs/Src/Feat/Plan/PlanMembersRepo.cs:36-53 | exactly the plans shared with the user (each joined with its owner, marked shared), each once, sorted by created_at descending |
| PlanMembersRepo.GetUsers | mahaam-api-cs/Src/Feat/Plan/PlanMembersRepo.cs:58-66 | exactly the existing users who are members of the plan, sorted by created_at descending, at most the membership count |
| PlanMembersRepo.GetPlansCount | mahaam-api-cs/Src/Feat/Plan/PlanMembersRepo.cs:71-77 | counts membership rows of the user's plans, never more than the table |
| PlanMembersRepo.PlansCountAfterCreate | mahaam-api-cs/Src/Feat/Plan/PlanMembersRepo.cs:71-77 | a new membership raises the owner's shared count by one exactly when it names an existing plan of that owner |
| PlanMembersRepo.PlansCountCountsRows | mahaam-api-cs/Src/Feat/Plan/PlanMembersRepo.cs:71-77 | a plan shared with two users counts twice |
| PlanMembersRepo.GetUsersCount | mahaam-api-cs/Src/Feat/Plan/PlanMembersRepo.cs:82-86 | zero exactly when no membership row names the plan |
| PlanMembersRepo.SharedIffCounted | mahaam-api-cs/Src/Feat/Plan/PlanMembersRepo.cs:82-86 | a plan is shared exactly when its user count is positive |
| UserRepo.Create | mahaam-api-cs/Src/Feat/User/UserRepo.cs:17-23 | appends one user with a fresh id and no name or e-mail |
| UserRepo.UpdateName | mahaam-api-cs/Src/Feat/User/UserRepo.cs:25-29 | sets the name and updated_at of that user |
| UserRepo.UpdateEmail | mahaam-api-cs/Src/Feat/User/UserRepo.cs:31-35 | sets the e-mail and updated_at of that user |
| UserRepo.UpdatedAt | mahaam-api-cs/Src/Feat/User/UserRepo.cs:25-35 | an update by id changes only that user, and only the field set and updated_at |
| UserRepo.UpdateEmailFindable | mahaam-api-cs/Src/Feat/User/UserRepo.cs:31-35 | after UpdateEmail, a lookup by that e-mail finds a user |
| UserRepo.GetOneByEmail | mahaam-api-cs/Src/Feat/User/UserRepo.cs:37-41 | null exactly when no user has the e-mail; otherwise a user with it |
| UserRepo.GetOneByEmailIsSingle | mahaam-api-cs/Src/Feat/User/UserRepo.cs:37-41 | when no two users share an e-mail, the lookup returns exactly the user holding it |
| UserRepo.DeleteKeepsEmailsUnique | mahaam-api-cs/Src/Feat/User/UserRepo.cs:49-53 | deleting a user keeps e-mails unique |
| UserRepo.GetOne | mahaam-api-cs/Src/Feat/User/UserRepo.cs:43-47 | null exactly when no user has the id; otherwise that user |
| UserRepo.Delete | mahaam-api-cs/Src/Feat/User/UserRepo.cs:49-53 | removes the user (0 or 1 rows) and, by the cascade, the user's plans with their tasks and members, the user's memberships and the user's devices |
| UserRepo.DeleteKeepsPlansDense | mahaam-api-cs/Src/Feat/User/UserRepo.cs:49-53 | the deleted user's partitions become empty, others are unchanged, all stay dense |
| UserRepo.DeleteKeepsTasksDense | mahaam-api-cs/Src/Feat/User/UserRepo.cs:49-53 | the deleted plans lose their tasks, other plans are unchanged, all stay dense |
| DeviceRepo.Create | mahaam-api-cs/Src/Feat/User/DeviceRepo.cs:19-26 | appends the device under a fresh id and returns that id |
| DeviceRepo.DeleteByFingerprint | mahaam-api-cs/Src/Feat/User/DeviceRepo.cs:28-32 | removes every device with the fingerprint, returns how many, and none is left |
| DeviceRepo.Delete | mahaam-api-cs/Src/Feat/User/DeviceRepo.cs:34-38 | removes the device with the id and returns 1 when it existed and 0 otherwise |
| DeviceRepo.OwnerCountAfterDelete | mahaam-api-cs/Src/Feat/User/DeviceRepo.cs:34-38 | deleting one of a user's devices lowers the user's device count by one |
| DeviceRepo.GetOne | mahaam-api-cs/Src/Feat/User/DeviceRepo.cs:40-45 | null exactly when no device has the id; otherwise that device |
| DeviceRepo.GetMany | mahaam-api-cs/Src/Feat/User/DeviceRepo.cs:47-52 | exactly the user's devices, each once (a permutation), sorted by created_at descending |
| DeviceRepo.LastIsOldest | mahaam-api-cs/Src/Feat/User/DeviceRepo.cs:47-52 | the last device of GetMany is the user's oldest |
| DeviceRepo.UpdateUserId | mahaam-api-cs/Src/Feat/User/DeviceRepo.cs:54-58 | sets the owner of the device with the id and returns 1 when it existed and 0 otherwise |
| DeviceRepo.UpdatedAt | mahaam-api-cs/Src/Feat/User/DeviceRepo.cs:54-58 | only that device changes, and only its user_id and updated_at |
| DeviceRepo.OwnerCountAfterUpdate | mahaam-api-cs/Src/Feat/User/DeviceRepo.cs:54-58 | moving another user's device to a user raises that user's device count by one |
| SuggestedEmailsRepo.HasPair | mahaam-api-cs/Src/Feat/User/SuggestedEmailsRepo.cs:21-23 | holds exactly when a row has that (user_id, email), the conflict key |
| SuggestedEmailsRepo.Create | mahaam-api-cs/Src/Feat/User/SuggestedEmailsRepo.cs:18-27 | inserts (user, email) unless that pair exists; returns the new id, or the empty id on conflict |
| SuggestedEmailsRepo.CreateHoldsPairOnce | mahaam-api-cs/Src/Feat/User/SuggestedEmailsRepo.cs:18-27 | afterwards the pair occurs exactly once, pairs stay unique and the old rows are kept as a prefix |
| SuggestedEmailsRepo.InsertedPairs | mahaam-api-cs/Src/Feat/User/SuggestedEmailsRepo.cs:18-27 | the pairs after Create are the pairs before plus the new one |
| SuggestedEmailsRepo.CreateIdempotent | mahaam-api-cs/Src/Feat/User/SuggestedEmailsRepo.cs:18-27 | inserting the same pair twice leaves the table as after once |
| SuggestedEmailsRepo.Delete | mahaam-api-cs/Src/Feat/User/SuggestedEmailsRepo.cs:29-33 | removes the row with the id and returns 1 when it existed and 0 otherwise |
| SuggestedEmailsRepo.DeleteManyByEmail | mahaam-api-cs/Src/Feat/User/SuggestedEmailsRepo.cs:35-39 | removes every row with the e-mail, for any user, and returns how many |
| SuggestedEmailsRepo.GetMany | mahaam-api-cs/Src/Feat/User/SuggestedEmailsRepo.cs:41-46 | exactly the user's suggested e-mails, each once, sorted by created_at descending |
| SuggestedEmailsRepo.GetOne | mahaam-api-cs/Src/Feat/User/SuggestedEmailsRepo.cs:48-52 | null exactly when no row has the id; otherwise that row |
| PlanService.GetOne | mahaam-api-cs/Src/Feat/Plan/PlanService.cs:29-34 | null exactly when no plan has the id; otherwise the repository's plan, with no members when it is not shared and exactly `PlanMembersRepo.GetUsers` of the plan when it is |
| PlanService.GetMany | mahaam-api-cs/Src/Feat/Plan/PlanService.cs:36-47 | first exactly the repository's list of the caller's plans of the type, all of them, by sort_order descending; then exactly `PlanMembersRepo.GetOtherPlans` when logged in and nothing otherwise, all marked shared |
| PlanService.Create | mahaam-api-cs/Src/Feat/Plan/PlanService.cs:49-56 | fails with max_is_100 and changes nothing exactly when the caller has 100 Main plans; otherwise inserts, and the count stays at most 100 |
| PlanService.Update | mahaam-api-cs/Src/Feat/Plan/PlanService.cs:58-62 | the ownership check decides the outcome; on success only the plan's details change and no partition's order changes |
| PlanService.Delete | mahaam-api-cs/Src/Feat/Plan/PlanService.cs:64-71 | after the ownership check, compacts the partition, then removes the plan with its tasks and members; nothing on failure |
| PlanService.DeleteKeepsDense | mahaam-api-cs/Src/Feat/Plan/PlanService.cs:64-71 | Delete keeps every plan partition and every plan's tasks dense |
| PlanService.Share | mahaam-api-cs/Src/Feat/Plan/PlanService.cs:73-98 | the first failing check, in source order, is the outcome (logged in, owner, e-mail found, not the creator, quota); success appends the membership stamped with the old clock, keeps the user count at most 20, and leaves the suggested e-mails exactly as two inserts leave them (`ShareEmails`): (caller, e-mail) first, then (target, caller's e-mail); two ids and three ticks are used; no other table changes |
| PlanService.BothWaysPairs | mahaam-api-cs/Src/Feat/Plan/PlanService.cs:95-97 | after the two inserts both pairs are present and the old rows are a prefix |
| PlanService.QuotaLeavesRoom | mahaam-api-cs/Src/Feat/Plan/PlanService.cs:82-93 | when the quota passes, the plan has fewer than 20 members |
| PlanService.Unshare | mahaam-api-cs/Src/Feat/Plan/PlanService.cs:100-110 | after the login and ownership checks and the e-mail lookup, removes exactly the (plan, target) membership |
| PlanService.Leave | mahaam-api-cs/Src/Feat/Plan/PlanService.cs:112-121 | after the login check, removes the (plan, caller) rows; succeeds exactly when one row was removed and otherwise fails with ArgumentError("unable to leave") |
| PlanService.UpdateType | mahaam-api-cs/Src/Feat/Plan/PlanService.cs:123-133 | after the ownership check, fails with max_is_100 when the target type holds 100 plans; otherwise compacts the old partition and retypes the plan (corrected count; see Findings) |
| PlanService.UpdateTypeKeepsDense | mahaam-api-cs/Src/Feat/Plan/PlanService.cs:123-133 | UpdateType keeps every plan partition dense |
| PlanService.ReOrder | mahaam-api-cs/Src/Feat/Plan/PlanService.cs:136-143 | rejects with the count in the message exactly when an index lies outside the partition; otherwise moves, and the moved plan lands at newOrder |
| PlanService.ValidateUserOwnsThePlan | mahaam-api-cs/Src/Feat/Plan/PlanService.cs:145-151 | fails with ArgumentError("planId not found") exactly when no plan has the id, with a null dereference only when the plan's owner row is missing, with Unauthorized only for another owner's plan, and passes only for the caller's plan |
| PlanService.ValidateUserLoggedIn | mahaam-api-cs/Src/Feat/Plan/PlanService.cs:153-160 | a missing caller is a null dereference, a caller without e-mail is not logged in, and the check passes only for a caller with an e-mail |
| TaskService.Create | mahaam-api-cs/Src/Feat/Task/TaskService.cs:22-32 | fails and changes nothing exactly when the plan has 100 tasks; otherwise inserts the task and refreshes the plan's done_percent |
| TaskService.CreateProgress | mahaam-api-cs/Src/Feat/Task/TaskService.cs:22-32 | a new task raises the plan's total by one and leaves its done count |
| TaskService.Delete | mahaam-api-cs/Src/Feat/Task/TaskService.cs:39-47 | NotFound and nothing changed for a missing task; otherwise compaction, delete and a refreshed done_percent |
| TaskService.DeleteKeepsDense | mahaam-api-cs/Src/Feat/Task/TaskService.cs:39-47 | Delete keeps every plan's tasks dense |
| TaskService.DoneTarget | mahaam-api-cs/Src/Feat/Task/TaskService.cs:55-57 | a done task goes to 0 and an undone one to count-1, an index inside the plan's tasks |
| TaskService.UpdateDone | mahaam-api-cs/Src/Feat/Task/TaskService.cs:49-59 | NotFound for a missing task; otherwise sets the flag, refreshes done_percent from the new table, and moves the task to its target |
| TaskService.UpdateDoneKeepsDense | mahaam-api-cs/Src/Feat/Task/TaskService.cs:49-59 | the target passes the guard, every plan stays dense, and the task ends with the new flag at its target order |
| TaskService.ShiftKeepsProgress | mahaam-api-cs/Src/Feat/Task/TaskService.cs:49-59 | moving tasks changes no plan's done_percent |
| TaskService.UpdateTitle | mahaam-api-cs/Src/Feat/Task/TaskService.cs:61-64 | NotFound exactly when the task is missing; otherwise only the title changes, with no plan or owner check |
| TaskService.ReOrder | mahaam-api-cs/Src/Feat/Task/TaskService.cs:66-73 | equal indices change nothing; otherwise rejects exactly when an index lies outside the plan's tasks, and moves when it does not |
| UserService.Create | mahaam-api-cs/Src/Feat/User/UserService.cs:30-45 | a fresh user and a device for it; old devices with that fingerprint are gone, and the fingerprint occurs exactly once |
| UserService.SendMeOtp | mahaam-api-cs/Src/Feat/User/UserService.cs:47-56 | test e-mails get the test sid without the provider; others get the provider's answer |
| UserService.OtpStatus | mahaam-api-cs/Src/Feat/User/UserService.cs:61-64 | the test bypass gives "approved"; otherwise the provider's status |
| UserService.ApprovedWithoutProvider | mahaam-api-cs/Src/Feat/User/UserService.cs:61-64 | approval is independent of the provider exactly when the e-mail, sid and otp are the test ones |
| UserService.VerifyOtp | mahaam-api-cs/Src/Feat/User/UserService.cs:58-99 | a non-approved status fails with that status and changes nothing; otherwise the new e-mail is claimed, kept or merged, and the merge moves plans and the device and drops the caller |
| UserService.LoginActionAsWritten | mahaam-api-cs/Src/Feat/User/UserService.cs:72-93 | claim exactly when no user has the e-mail, and merge into its owner otherwise, even when that owner is the caller |
| UserService.LoginAction | mahaam-api-cs/Src/Feat/User/UserService.cs:72-93 | claim exactly when no user has the e-mail, stay exactly when the caller has it, and otherwise merge into another user |
| UserService.LoginCorrectionOnlyForOwner | mahaam-api-cs/Src/Feat/User/UserService.cs:72-93 | the corrected decision differs from the written one only when the caller already owns the e-mail |
| UserService.LoginLandsOnUser | mahaam-api-cs/Src/Feat/User/UserService.cs:72-93 | after login the returned user id names an existing user holding the e-mail |
| UserService.SelfMergeLosesUser | mahaam-api-cs/Src/Feat/User/UserService.cs:72-93 | as written, verifying one's own e-mail merges the caller into itself and returns the id of a deleted user |
| UserService.MergeInto | mahaam-api-cs/Src/Feat/User/UserService.cs:77-90 | plans move to the target, the device is moved after eviction, the caller's user row and memberships go, and tasks stay |
| UserService.ReassignLeavesNoPlan | mahaam-api-cs/Src/Feat/User/UserService.cs:77-90 | after the plan move the caller owns no plan, so deleting the caller removes no plan, task or membership |
| UserService.Oldest | mahaam-api-cs/Src/Feat/User/UserService.cs:81-85 | chosen exactly when the target has at least 5 devices, and then it is one of the target's oldest devices |
| UserService.EvictOldest | mahaam-api-cs/Src/Feat/User/UserService.cs:81-85 | removes that oldest device when there is one and nothing otherwise |
| UserService.EvictedRows | mahaam-api-cs/Src/Feat/User/UserService.cs:81-85 | eviction lowers the target's device count by one exactly at 5 or more and keeps every other user's device |
| UserService.MoveDevice | mahaam-api-cs/Src/Feat/User/UserService.cs:81-87 | eviction followed by the device's reassignment to the target |
| UserService.MergeDeviceCount | mahaam-api-cs/Src/Feat/User/UserService.cs:81-87 | after the merge the target has d devices when it had d >= 5, and d+1 otherwise |
| UserService.UpdateName | mahaam-api-cs/Src/Feat/User/UserService.cs:109-112 | sets the caller's name |
| UserService.Logout | mahaam-api-cs/Src/Feat/User/UserService.cs:114-120 | unauthorized and unchanged unless the device exists and is the caller's; otherwise exactly that device is removed |
| UserService.DeleteSuggestedEmail | mahaam-api-cs/Src/Feat/User/UserService.cs:122-128 | unauthorized and unchanged unless the row exists and is the caller's; otherwise exactly that row is removed |
| UserService.Delete | mahaam-api-cs/Src/Feat/User/UserService.cs:130-149 | the OTP gate on the caller's own e-mail; on approval every suggested e-mail with that address goes, then the caller with its plans, their tasks and memberships, its own memberships and its devices, each table stated exactly |
| UserService.LoginKeepsEmailsUnique | mahaam-api-cs/Src/Feat/User/UserService.cs:72-93 | when no two users share an e-mail before the login step, none do after it |
| Validator.RequiredText | mahaam-api-cs/Src/Infra/Validator.cs:6-9 | fails with "name is required" exactly when the value is null or all white space |
| Validator.BlankIffAllWhiteSpace | mahaam-api-cs/Src/Infra/Validator.cs:6-9 | the front-to-back blank scan holds exactly when every character is white space |
| Validator.BlankExamples | mahaam-api-cs/Src/Infra/Validator.cs:6-9 | "", spaces, tabs and newlines are missing; a string with a letter is not |
| Validator.OneAtLeastRequired | mahaam-api-cs/Src/Infra/Validator.cs:11-14 | fails with the message exactly when every value is null or consists of white-space characters only |
| Validator.RequiredId | mahaam-api-cs/Src/Infra/Validator.cs:16-19 | fails exactly when the id is null or the empty Guid |
| Validator.RequiredValue | mahaam-api-cs/Src/Infra/Validator.cs:21-34 | fails exactly when the value is null |
| Validator.In | mahaam-api-cs/Src/Infra/Validator.cs:36-40 | fails exactly when the item is not in the list, naming the comma-joined list |
| Validator.FailIf | mahaam-api-cs/Src/Infra/Validator.cs:42-45 | fails with the message exactly when the condition holds |
| Validator.ParsePlanType | mahaam-api-cs/Src/Feat/Plan/Plan.cs:28-33 | accepts exactly the names in PlanType.All and returns the type with that name |
| Validator.ParseTypeName | mahaam-api-cs/Src/Feat/Plan/Plan.cs:28-33 | every plan type's name parses back to that type |

## Left out

- HTTP controllers, JWT creation and refresh (`RefreshToken`, the token in `VerifyOtp`), logging and configuration loading are not modelled. The test e-mails, sid and otp are a `TestConfig` parameter.
- The OTP provider (Twilio) is not called. Its answers are parameters: the sid returned by sending and the status returned by verification.
- `Rule.ValidateEmail` is not modelled, because it relies on .NET's `MailAddress` parser.
- `GetDevices`, `GetSuggestedEmails` and `TaskService.GetList` are one-line forwards. They are `DeviceRepo.GetMany`, `SuggestedEmailsRepo.GetMany` and `TaskRepo.GetAll`.
- Foreign keys are not enforced on insert. A device, task or membership may name a missing user or plan. The delete cascades of the schema are modelled. The joins of `PlanMembersRepo.GetOtherPlans` and `PlanMembersRepo.GetUsers` drop a membership whose plan or user row is missing, as an inner join would; the source's LEFT JOIN would return it with empty columns. Such a row cannot arise from the modelled operations: Share checks the plan and the user, and the cascades remove memberships with their plan or user.
- Messages that interpolate a Guid keep only their fixed words:
  - Leave fails with "unable to leave";
  - `NotFound` carries no text.
- Exceptions are reduced to their kind and key. The order of the two string arguments of LogicException is not modelled.
- The asynchronous repository calls are modelled as synchronous steps.
- Concurrent requests and isolation levels are not modelled. Each operation runs alone.
- Rows with equal sort keys may come back in any order. The reads state only "sorted and a permutation".
- `OneAtLeastRequired`'s values are given by their `ToString()` text, as optional strings.
- `sort_order`, counts and ids are unbounded integers; the 32-bit `int` columns are not modelled. The quotas keep counts far below the limit.
- UserService.Create: does not state that the new user owns exactly one device afterwards, because device rows are not tied to existing users.
- PlanRepo.UpdateType and PlanService.UpdateType: model the corrected count (other plans of the target type). The written statement differs only when the type does not change: a user's only Main plan retyped to Main stays at order 0 in the model, where the written count puts it at 1; see Findings.
- UserService.VerifyOtp: uses the corrected login decision. Verifying the caller's own e-mail keeps the account instead of merging it into itself; see Findings.
- PlanService.ReOrder and TaskService.ReOrder: use the corrected index guard; see Findings.
- TaskService.UpdateDone: its move step uses the corrected index guard too. The two differ only when the task's current order or the target lies outside `0 … count-1`. This happens when the task is not in plan `planId`, or when the plan's orders are not dense. Example: plan P has no tasks, and task X sits at order 0 of another plan; `UpdateDone(P, X, false)` computes target -1. The written guard lets it through and the done flag is committed; the model fails and rolls back. Likewise, when plan P holds one task and X sits at order 1 of another plan, `UpdateDone(P, X, true)` moves from 1 to 0: the written guard passes and shifts P's task from 0 to 1, while the model rejects the move. `UpdateDoneKeepsDense` shows that for a task of the plan with dense orders the target always passes the guard.
- UserRepo.GetOneByEmail: returns the first user with the e-mail. The source's single-row read throws when two users share one; that path is not modelled. E-mail uniqueness is not part of `Db.Valid()`. `EmailsUnique` states it, `GetOneByEmailIsSingle` shows the first match is then the only one, and `DeleteKeepsEmailsUnique` and `UserService.LoginKeepsEmailsUnique` show the two operations that change e-mails preserve it.
- done_percent is a `Progress(done, total)` pair of counts, not the `"done/total"` text the column stores. The text formatting is not modelled.

## Findings

| source | as written | input that shows it | evidently intended | confidence | as-written member | corrected member |
|---|---|---|---|---|---|---|
| mahaam-api-cs/Src/Feat/Plan/PlanService.cs:139-140 | the reorder guard rejects only `oldOrder > count` or `newOrder > count` (the same guard in TaskService.cs:70-71) | one plan at order 0, ReOrder(0, 1): passes and leaves order 1 with no 0; ReOrder(-1, 0) on two plans also passes | reject unless `0 <= oldOrder < count` and `0 <= newOrder < count`, as the message says | high, not executed | SortOrder.ReorderRejectedAsWritten with SortOrder.AsWrittenGuardAdmitsGap and SortOrder.AsWrittenGuardAdmitsNegative | SortOrder.ReorderRejected with SortOrder.GuardedMoveKeepsDense |
| mahaam-api-cs/Src/Feat/Plan/PlanRepo.cs:145-151 | the new sort_order counts the user's plans of the target type including the plan itself | a user's only Main plan retyped to Main: RemoveFromOrder leaves it at 0, then it gets 1 | count only the other plans of the target type | medium, not executed | PlanRepo.RetypedAsWritten with PlanRepo.RetypeAsWrittenLeavesGap | PlanRepo.Retyped with PlanRepo.RetypeKeepsDense |
| mahaam-api-cs/Src/Feat/User/UserService.cs:72-93 | any user holding the e-mail triggers a merge, even the caller | caller 1 already has e-mail a@b.c and verifies it again: its plans move to itself, the user row is deleted, and id 1 is returned | keep the caller's account when it already holds the e-mail | medium, not executed | UserService.LoginActionAsWritten with UserService.SelfMergeLosesUser | UserService.LoginAction with UserService.LoginLandsOnUser |
