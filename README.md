# Project-management Discord bot: status and notification lifecycle

This project is a Dafny model of the core of a Discord bot that tracks a
guild's projects, their milestones and their issues. It covers:

- **Date utilities** (`src/utils/date.ts`): D-day text, days remaining, the
  delay test, the D-n test and period progress. Instants are millisecond
  integers in UTC.
- **Permissions** (`src/utils/permissions.ts`): the admin / pm / user levels
  and the comparison of a member's level with the level a command requires.
- **Repositories**: the Prisma tables of projects, participants, milestones,
  issues and guild settings.
  - The tables are map fields of one `Store.Database` object.
  - Writes are methods that change only the table they name.
  - Queries are functions that return the set of matching ids.
- **Services**: the state machine of a project's status.
  - A critical issue escalates an IN_PROGRESS project to ISSUE.
  - Closing the last critical issue returns the project to IN_PROGRESS.
  - Completion is refused while open issues remain.
  - The milestone and issue guards and the statistics are also modelled.
- **Schedulers**:
  - The deadline run advances overdue milestones to DELAYED. It then sends
    the D-7, D-1 and delayed notices, and sets a milestone's flag only when
    its notice was delivered.
  - The issue watcher warns about unattended OPEN issues, with a six-hour
    cooldown.
  - The weekly report computes per-guild counts over a two-week window.

Key points of the model:

- **Delivery.** Delivering a Discord message is the method
  `Notifier.Deliver`. It returns false when the guild has no settings row or
  its notification channel is empty. Otherwise it returns the Discord
  client's answer, which the model takes as a parameter. Each scheduler's
  `Run` takes those answers as a function `delivers` from the milestone,
  issue or guild to a boolean, fixed for that attempt.
- **Schedulers.** Each scheduler's `Run` is stated against a pure function
  of the state before the run:
  - `DeadlineScheduler.AfterRun`;
  - `IssueWatcherScheduler.WarnAll`;
  - `WeeklyReportScheduler.GenerateReportData`.
- **Lemmas about those functions** state:
  - a notice that was sent is never sent again;
  - a notice that failed stays eligible for the next run;
  - the issue-warning cooldown is exactly six hours.

Files:

- `wrappers.dfy`: Option, Result and Outcome.
- `enums.dfy`: the status, impact and role enums.
- `dates.dfy`: the date helpers.
- `groupby.dfy`: a model of Prisma `groupBy` results as key/count rows.
- `store.dfy`: the entities and the database.
- One file per repository, service and scheduler.
- `notifier.dfy`: the delivery oracle.
- `permissions.dfy`: the permission rules.

## Model

| member | source | states |
|---|---|---|
| Dates.StartOfDay | src/utils/date.ts:41-42 | the midnight at or before `t`, less than one day before it |
| Dates.EndOfDay | src/repositories/milestone.repository.ts:120-121 | the last millisecond of `t`'s day |
| Dates.DayNumberOfDayStart | src/utils/date.ts:41-42 | the day number of midnight of day `k` is `k` |
| Dates.WithinDayIffSameDay | src/utils/date.ts:76 | `t` lies between the start and end of `d`'s day iff they share a day number (`isSameDay`) |
| Dates.StartOfDayOrder | src/utils/date.ts:65 | comparing day starts is the same as comparing day numbers |
| Dates.BeforeStartOfDay | src/repositories/milestone.repository.ts:145-160 | `t` is before today's midnight iff its day number is smaller |
| Dates.DayNumberMonotone | src/utils/date.ts:61-66 | a later instant never has an earlier day number |
| Dates.DayNumberAddDays | src/utils/date.ts:74 | adding `n` days moves the day number by exactly `n` |
| Dates.DifferenceInDays | src/utils/date.ts:43 | the number of whole 24-hour days between two instants, truncated toward zero, in both signs |
| Dates.DifferenceOfDayStarts | src/utils/date.ts:41-43 | between two midnights, the difference is exactly the difference of the day numbers |
| Dates.DifferenceInDaysMonotone | src/utils/date.ts:96 | the difference never decreases as its first argument grows |
| Dates.Decimal | src/utils/date.ts:46-47 | a non-empty string made only of digits |
| Dates.DecimalValue | src/utils/date.ts:46-47 | the digits denote `n` exactly, and only 0 is written with a leading '0', so "D-n" and "D+n" show the day count itself |
| Dates.GetDDay | src/utils/date.ts:37-48 | "D-Day" iff the target day is today; "D-n" n days before it; "D+n" n days after it; the invalid-date text when there is no date |
| Dates.GetDaysRemaining | src/utils/date.ts:51-58 | the target's day number minus today's; 0 when there is no date |
| Dates.DaysRemainingIgnoresTimeOfDay | src/utils/date.ts:55-57 | the time of day of either instant does not change the result |
| Dates.IsDelayed | src/utils/date.ts:61-66 | true iff the target falls on an earlier calendar day than today; false when there is no date |
| Dates.IsDaysBefore | src/utils/date.ts:69-77 | true iff the target falls exactly `days` calendar days after today |
| Dates.RoundPercent | src/utils/date.ts:102 | the integer nearest to 100·part/whole, halves rounded up; at most 100 when part ≤ whole |
| Dates.Rate | src/services/milestone.service.ts:141-143 | 0 when the whole is 0; otherwise the rounded percentage part/whole, at most 100 when part ≤ whole; also the resolution rate at src/services/issue.service.ts:158-160 |
| Dates.RoundPercentMonotone | src/utils/date.ts:102 | a larger part never rounds to a smaller percentage |
| Dates.CalculateProgress | src/utils/date.ts:93-103 | between 0 and 100; 100 for an empty or reversed period and once the end is reached; 0 before the first whole day |
| Dates.ProgressMonotone | src/utils/date.ts:93-103 | progress never decreases as time passes |
| Dates.ProgressInsidePeriod | src/utils/date.ts:102 | inside the period, progress is the rounded ratio of elapsed days to total days |
| GroupBy.NonZero | src/repositories/milestone.repository.ts:189-193 | only groups with a positive count are kept |
| GroupBy.NonZeroKeys | src/repositories/milestone.repository.ts:189-193 | every key in the result was a key of the input |
| GroupBy.NonZeroDistinct | src/repositories/milestone.repository.ts:189-193 | filtering keeps keys distinct |
| GroupBy.NonZeroSum | src/repositories/milestone.repository.ts:202-217 | dropping empty groups does not change the total |
| GroupBy.NonZeroCount | src/repositories/milestone.repository.ts:202-217 | the count for each key is unchanged by the filtering |
| GroupBy.CountForKey | src/repositories/milestone.repository.ts:202-217 | with distinct keys, a key's count is the count of its row |
| GroupBy.AbsentKeyCount | src/repositories/milestone.repository.ts:202-217 | a key without a row counts 0 |
| GroupBy.ToMapContents | src/repositories/issue.repository.ts:240-258 | the record built from the rows has exactly their keys, each mapped to its count |
| GroupBy.PresentKeyCount | src/repositories/issue.repository.ts:240-258 | a key present among positive rows has a positive count |
| GroupBy.NonZeroRecord | src/repositories/project.repository.ts:160-173 | the record holds a key iff its count is positive, and holds that count |
| GuildSettingsRepository.FoundOrCreated | src/repositories/guild-settings.repository.ts:8-20 | an existing row is kept unchanged; a missing one is added blank; no other row changes |
| GuildSettingsRepository.FindOrCreateIdempotent | src/repositories/guild-settings.repository.ts:8-20 | a second find-or-create changes nothing |
| GuildSettingsRepository.FindOrCreate | src/repositories/guild-settings.repository.ts:8-20 | the table becomes `FoundOrCreated` and the returned row is the stored one |
| GuildSettingsRepository.FindByGuildId | src/repositories/guild-settings.repository.ts:23-27 | Some exactly when the guild has a row, holding that row |
| GuildSettingsRepository.Upserted | src/repositories/guild-settings.repository.ts:30-39 | the row exists afterwards; supplied fields take the new value; omitted fields keep the old one (or the blank default); other guilds are untouched |
| GuildSettingsRepository.Upsert | src/repositories/guild-settings.repository.ts:30-39 | the table becomes `Upserted` and the stored row is returned |
| GuildSettingsRepository.Update | src/repositories/guild-settings.repository.ts:30-39 | the same upsert with the given patch |
| GuildSettingsRepository.SetNotificationChannel | src/repositories/guild-settings.repository.ts:42-51 | an upsert of the channel alone; the returned row holds the new channel |
| GuildSettingsRepository.SetAdminRole | src/repositories/guild-settings.repository.ts:54-63 | an upsert of the admin role alone |
| GuildSettingsRepository.SetPmRole | src/repositories/guild-settings.repository.ts:66-75 | an upsert of the pm role alone |
| GuildSettingsRepository.SetTimezone | src/repositories/guild-settings.repository.ts:78-87 | an upsert of the time zone alone |
| GuildSettingsRepository.FindWithNotificationChannel | src/repositories/guild-settings.repository.ts:95-101 | exactly the guilds whose channel is not null |
| GuildSettingsRepository.ChannelSetIsFound | src/repositories/guild-settings.repository.ts:42-51 | setting a channel adds exactly that guild to the guilds with a channel |
| IssueRepository.Create | src/repositories/issue.repository.ts:24-28 | a fresh id holds an OPEN issue with the given data and creation time; an unknown project is a foreign-key error with nothing stored |
| IssueRepository.FindMany | src/repositories/issue.repository.ts:57-96 | exactly the issues meeting every supplied filter; `openOnly` replaces any status filter by OPEN or IN_ACTION |
| IssueRepository.Update | src/repositories/issue.repository.ts:99-104 | the row is patched field by field; a missing id is an error and nothing changes |
| IssueRepository.StatusUpdated | src/repositories/issue.repository.ts:107-125 | sets the status; stamps resolvedAt for RESOLVED and closedAt for CLOSED; stores a non-empty resolution only on CLOSED; changes nothing else |
| IssueRepository.UpdateStatus | src/repositories/issue.repository.ts:107-125 | the stored row becomes `StatusUpdated` of the old one |
| IssueRepository.FindUnattended | src/repositories/issue.repository.ts:135-152 | exactly the OPEN issues created strictly more than `days` days before now |
| IssueRepository.FindForWarning | src/repositories/issue.repository.ts:155-175 | exactly the OPEN issues older than `days` days that were never warned, or last warned more than `hours` hours ago |
| IssueRepository.WarningCooldown | src/repositories/issue.repository.ts:163-172 | an issue warned within the last `hours` hours is not selected |
| IssueRepository.UpdateWarningTime | src/repositories/issue.repository.ts:178-183 | only lastWarningAt changes, to now |
| IssueRepository.FindCritical | src/repositories/issue.repository.ts:186-202 | exactly the CRITICAL, OPEN or IN_ACTION issues, limited to the guild when one is given |
| IssueRepository.SplitPart | src/repositories/issue.repository.ts:205-260 | removing one status from a status set subtracts exactly that status's count |
| IssueRepository.StatusPartition | src/repositories/issue.repository.ts:205-260 | a project's issue total is the sum of its four status counts |
| IssueRepository.StatusCountsFacts | src/repositories/issue.repository.ts:205-260 | the groupBy rows have distinct keys, sum to the total, and give every status its count |
| IssueRepository.GetStatsByProject | src/repositories/issue.repository.ts:205-260 | the total and the four status counts agree with the table and add up; the impact record holds exactly the impacts present, each with its count |
| IssueRepository.ImpactRecord | src/repositories/issue.repository.ts:240-258 | the impact record has a key iff that impact occurs, with its count |
| IssueService.CreateGuard | src/services/issue.service.ts:14-34 | passes iff the project exists and is not COMPLETED; otherwise the matching error |
| IssueService.StatusAfterCreate | src/services/issue.service.ts:24-32 | the project status changes iff a CRITICAL issue lands on an IN_PROGRESS project, and then becomes ISSUE |
| IssueService.Create | src/services/issue.service.ts:14-34 | on a failed guard nothing changes; otherwise the issue is stored, and the project row is unchanged or, on escalation, patched to ISSUE with its updatedAt stamped |
| IssueService.EditGuard | src/services/issue.service.ts:57-69 | passes iff the issue exists and is not CLOSED |
| IssueService.Update | src/services/issue.service.ts:57-69 | a failed guard changes nothing; otherwise the patch is applied |
| IssueService.UpdateStatus | src/services/issue.service.ts:72-84 | a failed guard changes nothing; otherwise the status is updated and the project status is left alone |
| IssueService.CloseGuard | src/services/issue.service.ts:87-115 | passes iff the issue exists and is not already CLOSED |
| IssueService.RemainingCritical | src/services/issue.service.ts:100-108 | the other CRITICAL issues of the same project that are OPEN or IN_ACTION |
| IssueService.RemainingIgnoresClosed | src/services/issue.service.ts:100-108 | rewriting the closed issue does not change the remaining critical set |
| IssueService.Close | src/services/issue.service.ts:87-115 | a failed guard changes nothing; otherwise the issue is CLOSED with closedAt, and the project status becomes `StatusAfterClose` |
| IssueService.StatusAfterClose | src/services/issue.service.ts:97-112 | the status changes iff a CRITICAL issue is closed on an ISSUE project with no other active critical issue, and then becomes IN_PROGRESS |
| IssueService.EscalationRoundTrip | src/services/issue.service.ts:24-112 | escalation by a lone critical issue is undone by closing it |
| IssueService.GetStatsByProject | src/services/issue.service.ts:148-166 | the total, each of the four status counts and each impact's count agree with the table; the rate is the rounded share of RESOLVED and CLOSED issues |
| IssueService.IsCritical | src/services/issue.service.ts:169-171 | true iff the impact text is "CRITICAL" |
| IssueService.IsCriticalOnlyForCritical | src/services/issue.service.ts:169-171 | among the enum's names, only CRITICAL's is critical |
| MilestoneRepository.SetFlag | src/repositories/milestone.repository.ts:137-142 | sets the named flag, keeps the other two and every other field |
| MilestoneRepository.Create | src/repositories/milestone.repository.ts:23-27 | a fresh id holds a SCHEDULED milestone with clear flags; an unknown project is a foreign-key error |
| MilestoneRepository.FindMany | src/repositories/milestone.repository.ts:53-87 | exactly the milestones meeting the filters; a supplied `delayed` replaces the status filter by status = DELAYED when true and status ≠ DELAYED when false |
| MilestoneRepository.Update | src/repositories/milestone.repository.ts:90-95 | the row is patched; a missing id changes nothing |
| MilestoneRepository.Completed | src/repositories/milestone.repository.ts:98-106 | status COMPLETED with completedAt = now; nothing else changes |
| MilestoneRepository.Complete | src/repositories/milestone.repository.ts:98-106 | the stored row becomes `Completed` |
| MilestoneRepository.FindForNotification | src/repositories/milestone.repository.ts:116-134 | exactly the SCHEDULED milestones on the given calendar day whose flag is still clear |
| MilestoneRepository.MarkNotified | src/repositories/milestone.repository.ts:137-142 | only the named flag, set to true |
| MilestoneRepository.FindDelayed | src/repositories/milestone.repository.ts:145-160 | exactly the SCHEDULED or DELAYED milestones whose target day is before today |
| MilestoneRepository.StaleIds | src/repositories/milestone.repository.ts:163-180 | exactly the SCHEDULED milestones whose target day is before today |
| MilestoneRepository.AdvanceStale | src/repositories/milestone.repository.ts:163-180 | those become DELAYED; COMPLETED, DELAYED and not-yet-due rows are untouched |
| MilestoneRepository.UpdateDelayedStatus | src/repositories/milestone.repository.ts:163-180 | the table becomes `AdvanceStale` and the count returned is the number of rows advanced |
| MilestoneRepository.AdvanceStaleIdempotent | src/repositories/milestone.repository.ts:163-180 | a second run on the same day finds nothing to advance and changes nothing |
| MilestoneRepository.AdvanceStaleLater | src/repositories/milestone.repository.ts:163-180 | a run on one day then a later day equals a run on the later day alone |
| MilestoneRepository.StatusPartition | src/repositories/milestone.repository.ts:183-220 | a project's milestone total is the sum of its three status counts |
| MilestoneRepository.StatusCountsFacts | src/repositories/milestone.repository.ts:189-217 | the groupBy rows have distinct keys, sum to the total and give each status its count |
| MilestoneRepository.GetStatsByProject | src/repositories/milestone.repository.ts:183-220 | the counts agree with the table and add up to the total |
| MilestoneService.CreateGuard | src/services/milestone.service.ts:15-33 | passes iff the project exists, is not COMPLETED and its period contains the target; otherwise the error of the first failing check: ProjectNotFound, ProjectCompleted or TargetOutsidePeriod |
| MilestoneService.Create | src/services/milestone.service.ts:15-33 | a failed guard stores nothing; otherwise a new milestone is stored |
| MilestoneService.UpdateGuard | src/services/milestone.service.ts:56-76 | passes iff the milestone exists, its project is not COMPLETED, and a supplied target lies in the period |
| MilestoneService.Update | src/services/milestone.service.ts:56-76 | a failed guard changes nothing; otherwise the patch is applied |
| MilestoneService.CompleteGuard | src/services/milestone.service.ts:79-90 | passes iff the milestone exists and is not COMPLETED |
| MilestoneService.Complete | src/services/milestone.service.ts:79-90 | a failed guard changes nothing; otherwise the milestone is completed |
| MilestoneService.CompleteOnce | src/services/milestone.service.ts:79-90 | a completed milestone cannot be completed again; a DELAYED one can be completed |
| MilestoneService.FindForDayNotification | src/services/milestone.service.ts:103-114 | exactly the SCHEDULED milestones `days` calendar days ahead whose flag is clear |
| MilestoneService.FindForD7Notification | src/services/milestone.service.ts:103-107 | that set for 7 days ahead and the D-7 flag |
| MilestoneService.FindForD1Notification | src/services/milestone.service.ts:110-114 | that set for 1 day ahead and the D-1 flag |
| MilestoneService.FieldFor | src/services/milestone.service.ts:117-120 | each notice type maps to its own flag, one to one |
| MilestoneService.MarkNotified | src/services/milestone.service.ts:117-120 | only that flag is set |
| MilestoneService.GetStatsByProject | src/services/milestone.service.ts:133-149 | the counts agree with the repository's and the rate is the rounded ratio |
| MilestoneService.UpcomingCandidates | src/services/milestone.service.ts:152-166 | exactly the SCHEDULED milestones due today or later, in the guild when the guild id is non-empty |
| MilestoneService.SliceEnd | src/services/milestone.service.ts:164 | the length that `slice(0, limit)` keeps, negative limits included |
| MilestoneService.EarliestExists | src/services/milestone.service.ts:163 | a non-empty set has a milestone with the earliest target |
| MilestoneService.FindUpcoming | src/services/milestone.service.ts:152-166 | distinct candidates in target order, as many as the slice keeps, none later than a candidate left out |
| MilestoneService.SelectNext | src/services/milestone.service.ts:163 | appending the earliest remaining candidate keeps the selection sorted, distinct and earliest-first |
| MilestoneService.EarliestFirst | src/services/milestone.service.ts:163-164 | the `n` earliest candidates, distinct, in non-decreasing target order |
| Notifier.Deliver | src/services/notification.service.ts:15-38 | delivered iff the guild's settings row has a non-empty channel and the client's answer is true |
| Permissions.Weight | src/utils/permissions.ts:56-63 | admin 3, pm 2, user 1 |
| Permissions.WeightOrder | src/utils/permissions.ts:56-63 | the weights are distinct and ordered admin > pm > user |
| Permissions.UserPermissionLevel | src/utils/permissions.ts:15-53 | admin iff Administrator or the admin role; pm iff not admin and the pm role; user without a member or a guild |
| Permissions.CheckPermission | src/utils/permissions.ts:66-91 | allowed iff the member's weight is at least the required one; a denial carries the message naming the required level |
| Permissions.AdminAndUserChecks | src/utils/permissions.ts:66-91 | an admin passes every check; a user passes only the user check |
| Permissions.CheckMonotone | src/utils/permissions.ts:66-91 | passing a check passes every lower one |
| Permissions.RequirePermission | src/utils/permissions.ts:94-109 | true exactly when the check allows |
| ProjectRepository.ParticipantRows | src/repositories/project.repository.ts:33-40 | one row per listed member; the pm gets the PM role and the others MEMBER |
| ProjectRepository.Create | src/repositories/project.repository.ts:29-43 | a fresh PLANNING project with its participant rows; a duplicate participant is a unique-key error and nothing is stored |
| ProjectRepository.FindMany | src/repositories/project.repository.ts:75-107 | exactly the guild's projects meeting the status, participant and search filters |
| ProjectRepository.SearchFindsExactText | src/repositories/project.repository.ts:96-101 | a term equal to the name or the description is found |
| ProjectRepository.Update | src/repositories/project.repository.ts:110-115 | the row is patched and updatedAt set; a missing id changes nothing |
| ProjectRepository.AddParticipant | src/repositories/project.repository.ts:125-133 | the row is added; a duplicate is a unique-key error; an unknown project is a foreign-key error |
| ProjectRepository.RemoveParticipant | src/repositories/project.repository.ts:136-145 | the row is removed; a missing row is an error |
| ProjectRepository.SplitPart | src/repositories/project.repository.ts:148-173 | removing a status from a status set subtracts its count |
| ProjectRepository.StatusPartition | src/repositories/project.repository.ts:160-173 | a guild's project total is the sum of its five status counts |
| ProjectRepository.NotCompletedPartition | src/repositories/project.repository.ts:148-157 | the four non-completed statuses' counts sum to the non-completed set |
| ProjectRepository.CountActiveByGuild | src/repositories/project.repository.ts:148-157 | active plus COMPLETED is the guild's total |
| ProjectRepository.ActiveCount | src/repositories/project.repository.ts:148-157 | the set of non-COMPLETED projects and the COMPLETED ones together make up the guild |
| ProjectRepository.StatusRecord | src/repositories/project.repository.ts:160-173 | the record has a status iff it occurs, with its count |
| ProjectRepository.GetStatsByGuild | src/repositories/project.repository.ts:160-173 | exactly the occurring statuses, each with its count, adding up to the total |
| ProjectService.Create | src/services/project.service.ts:33-40 | fails iff the end is not after the start or the participant list repeats a user: EndNotAfterStart or UniqueViolation with nothing stored; otherwise the new PLANNING row and one participant row per listed user, PM for the pm and MEMBER for the others |
| ProjectService.MilestonesWith | src/services/project.service.ts:53-58 | exactly the project's milestones with the given status |
| ProjectService.OpenIssues | src/services/project.service.ts:60-62 | exactly the project's OPEN or IN_ACTION issues |
| ProjectService.CriticalIssues | src/services/project.service.ts:63-65 | exactly the project's open issues whose impact is CRITICAL |
| ProjectService.GetDetail | src/services/project.service.ts:48-85 | None iff the project is missing; otherwise the totals are the project's milestone and issue rows, completed and delayed are the sizes of `MilestonesWith` for COMPLETED and DELAYED, open and critical are the sizes of `OpenIssues` and `CriticalIssues`, critical ≤ open ≤ total, completed + delayed ≤ total, and progress in 0..100 equal to the period progress |
| ProjectService.UpdateStatusGuard | src/services/project.service.ts:93-105 | passes iff the project exists and, when COMPLETED, only a reopen to IN_PROGRESS is asked |
| ProjectService.UpdateStatus | src/services/project.service.ts:93-105 | a failed guard changes nothing; otherwise only the status changes |
| ProjectService.UpdateGuard | src/services/project.service.ts:108-122 | passes iff the project exists and the resulting end is after the resulting start |
| ProjectService.Update | src/services/project.service.ts:108-122 | a failed guard changes nothing; otherwise the patch is applied |
| ProjectService.BlockingIssues | src/services/project.service.ts:131-140 | exactly the project's OPEN or IN_ACTION issues |
| ProjectService.CompleteGuard | src/services/project.service.ts:125-146 | passes iff the project exists, is not COMPLETED and has no blocking issue; the error carries their count |
| ProjectService.Complete | src/services/project.service.ts:125-146 | a failed guard changes nothing; otherwise the project becomes COMPLETED |
| ProjectService.AddParticipant | src/services/project.service.ts:159-166 | an unknown project is NotFound; a duplicate is a unique-key error; otherwise a MEMBER row is added |
| ProjectService.RemoveGuard | src/services/project.service.ts:169-181 | passes iff the project exists and the member is not its pm |
| ProjectService.RemoveParticipant | src/services/project.service.ts:169-181 | a failed guard changes nothing; otherwise the row is removed, or RecordMissing; the pm's row is never removed |
| ProjectService.GetGuildStats | src/services/project.service.ts:184-198 | the total, the active count and the per-status record agree with the table |
| DeadlineScheduler.MarkAll | src/schedulers/deadline.scheduler.ts:16-57 | the flag is set exactly for the given ids; other flags and fields are unchanged |
| DeadlineScheduler.MarkOneMore | src/schedulers/deadline.scheduler.ts:22-24 | marking one more id is a single-row update of the previous marking |
| DeadlineScheduler.DelayedCandidates | src/schedulers/deadline.scheduler.ts:44-57 | exactly the non-COMPLETED milestones delayed on the current snapshot whose delayed flag is clear |
| DeadlineScheduler.SweepStep | src/schedulers/deadline.scheduler.ts:18-26 | one delivery attempt keeps the loop's invariant |
| DeadlineScheduler.Sweep | src/schedulers/deadline.scheduler.ts:18-26 | every candidate is offered; a candidate is sent iff its guild has a channel and its delivery answer is true, so a failure does not stop the loop; the flag is set on exactly the sent ones |
| DeadlineScheduler.Run | src/schedulers/deadline.scheduler.ts:7-63 | the count of advanced rows; the table becomes `AfterRun`; each sent set is exactly the candidates of that step's query whose guild has a channel and whose answer for that step is true |
| DeadlineScheduler.AfterRun | src/schedulers/deadline.scheduler.ts:10-57 | the table after a run keeps every row; a row's status becomes DELAYED iff it was SCHEDULED and past due, and is kept otherwise; only the status and the three flags can change |
| DeadlineScheduler.AfterRunFlags | src/schedulers/deadline.scheduler.ts:7-63 | after a run, each flag is its old value or "sent"; every other field is as `AdvanceStale` left it |
| DeadlineScheduler.FailedD7StaysEligible | src/schedulers/deadline.scheduler.ts:22-24 | a D-7 notice that failed is still due on a later run the same day |
| DeadlineScheduler.FailedD1StaysEligible | src/schedulers/deadline.scheduler.ts:36-38 | a D-1 notice that failed is still due on a later run the same day |
| DeadlineScheduler.FailedDelayedStaysEligible | src/schedulers/deadline.scheduler.ts:47-54 | a delayed notice that failed is still due on any later run |
| DeadlineScheduler.SentD7Once | src/schedulers/deadline.scheduler.ts:22-24 | a delivered D-7 notice is never selected again |
| DeadlineScheduler.SentD1Once | src/schedulers/deadline.scheduler.ts:36-38 | a delivered D-1 notice is never selected again |
| DeadlineScheduler.SentDelayedOnce | src/schedulers/deadline.scheduler.ts:47-54 | a delivered delayed notice is never selected again |
| IssueWatcherScheduler.Eligible | src/schedulers/issue-watcher.scheduler.ts:10 | the warning query with 6 hours and 3 days |
| IssueWatcherScheduler.WarnAll | src/schedulers/issue-watcher.scheduler.ts:21-24 | lastWarningAt becomes now exactly for the given issues |
| IssueWatcherScheduler.WarnOneMore | src/schedulers/issue-watcher.scheduler.ts:21-24 | warning one more issue is a single-row update |
| IssueWatcherScheduler.WatchStep | src/schedulers/issue-watcher.scheduler.ts:12-25 | one delivery attempt keeps the loop's invariant |
| IssueWatcherScheduler.Run | src/schedulers/issue-watcher.scheduler.ts:7-33 | an eligible issue is warned iff its guild has a channel and its delivery answer is true; only eligible issues are warned; the table becomes `WarnAll` of them |
| IssueWatcherScheduler.OnlyOpenWarned | src/schedulers/issue-watcher.scheduler.ts:10 | only OPEN issues are warned |
| IssueWatcherScheduler.FailedWarningStaysEligible | src/schedulers/issue-watcher.scheduler.ts:21-24 | an issue whose warning failed is eligible at any later time |
| IssueWatcherScheduler.WarnedCooldown | src/schedulers/issue-watcher.scheduler.ts:21-24 | a warned issue becomes eligible again exactly when more than six hours have passed |
| WeeklyReportScheduler.Weekday | src/schedulers/weekly-report.scheduler.ts:56 | a day of the week, 0 = Monday |
| WeeklyReportScheduler.StartOfWeek | src/schedulers/weekly-report.scheduler.ts:56 | the Monday midnight of now's week, within seven days before now |
| WeeklyReportScheduler.EndOfWeek | src/schedulers/weekly-report.scheduler.ts:57 | the last millisecond of that week |
| WeeklyReportScheduler.Window | src/schedulers/weekly-report.scheduler.ts:55-58 | from last week's Monday midnight to the end of this week: 14 days less 1 ms, containing now |
| WeeklyReportScheduler.CompletedProjects | src/schedulers/weekly-report.scheduler.ts:69-75 | exactly the guild's COMPLETED projects last updated inside the window |
| WeeklyReportScheduler.CompletedMilestones | src/schedulers/weekly-report.scheduler.ts:86-92 | exactly the guild's COMPLETED milestones whose completion time lies inside the window |
| WeeklyReportScheduler.DelayedMilestones | src/schedulers/weekly-report.scheduler.ts:93-98 | exactly the guild's DELAYED milestones |
| WeeklyReportScheduler.OpenedIssues | src/schedulers/weekly-report.scheduler.ts:110-115 | exactly the guild's issues created inside the window |
| WeeklyReportScheduler.ClosedIssues | src/schedulers/weekly-report.scheduler.ts:116-122 | exactly the guild's CLOSED issues whose closing time lies inside the window |
| WeeklyReportScheduler.UpcomingMilestones | src/schedulers/weekly-report.scheduler.ts:99-105 | the guild's SCHEDULED milestones due within the next seven days |
| WeeklyReportScheduler.CriticalIssues | src/schedulers/weekly-report.scheduler.ts:123-129 | the guild's CRITICAL issues that are OPEN or IN_ACTION |
| WeeklyReportScheduler.GenerateReportData | src/schedulers/weekly-report.scheduler.ts:37-150 | every count is the size of its query over `Window(now)` or now: the guild's projects, active, completed in the window, ISSUE; milestones completed in the window, DELAYED, upcoming; issues opened and closed in the window, critical. Also active + COMPLETED = total, completed ≤ total − active, with issues ≤ active, and the milestone counts fit within the guild's milestones |
| WeeklyReportScheduler.ProjectFacts | src/schedulers/weekly-report.scheduler.ts:61-82 | the completed count is within the COMPLETED projects; the ISSUE count is within the active ones |
| WeeklyReportScheduler.MilestoneFacts | src/schedulers/weekly-report.scheduler.ts:85-106 | completed, delayed and upcoming milestones are disjoint parts of the guild's milestones |
| WeeklyReportScheduler.Run | src/schedulers/weekly-report.scheduler.ts:10-33 | one report per guild with a channel, each equal to `GenerateReportData`; a report is sent iff its guild has a channel and its delivery answer is true, so one guild's failure does not stop the others |

## Left out

- Ordering by `orderBy` is not modelled, except `findUpcoming`'s sort by target date. The `find*` queries return sets of ids. This includes the issue list's impact sort.
- Deletion, `findById`/`findByProject` lookups that only pass a query through, and `findAll` are not modelled. They carry no rule.
- Exceptions and the schedulers' outer `try`/`catch` are not modelled. A thrown error ends a run early in the program; in the model every step is total.
- Console logging is not modelled.
- Dates.RoundPercent, Dates.Rate and Dates.CalculateProgress round the exact ratio half up. The program rounds a floating-point product with `Math.round((part / whole) * 100)`, which can differ by one when the product falls just below a half: for 23/40 the program gives 57 and the model 58.
- MilestoneService.FindUpcoming takes `limit` as a parameter. The program's default of 5 for an omitted limit is not modelled: callers pass it explicitly.
- The content of Discord messages is not modelled: embeds, daysRemaining and days since creation. Delivery is the `Notifier.Deliver` oracle.
- Channel lookup through the Discord client is not modelled: whether the channel exists and can receive messages. That outcome is the `answer` given to Deliver, so Deliver may fail even for a guild with a channel.
- Time zones and daylight-saving time are not modelled: all dates are UTC. `startOfWeek` and `endOfWeek` are computed on UTC calendar days.
- The Prisma schema is not part of this model. Its defaults are assumed:
  - a project starts PLANNING, and `updatedAt` is set on every write;
  - a milestone starts SCHEDULED with clear flags;
  - an issue starts OPEN;
  - a guild settings row starts with every optional column null, the timezone included.
- Prisma `contains` is modelled as a case-sensitive substring test.
- The zod input limits of the commands are not modelled: lengths, formats and enum parsing. The model starts from typed values.
- The schedulers' iteration order is not modelled. Each loop picks the next id from a set, so every order is covered.
- Each scheduler run reads the clock once: one `now` serves every query and every write of that run. The program reads the clock again for each date it computes and stamps `lastWarningAt` when the write happens, a few milliseconds later. IssueWatcherScheduler.WarnedCooldown is exact only for that single `now`.
- WeeklyReportScheduler.Run builds all reports before sending any. The program builds each just before sending it. Report generation reads no state that sending changes, so the two are equivalent.
- Permissions.RequirePermission does not model the ephemeral reply sent on denial.
- Permissions.Weight has no counterpart to the program's default of 0: the level type is closed.
- Permissions.IsProjectPM and Permissions.IsProjectParticipant are modelled as plain predicates without contracts.
- The issue service's `findForWarning`, `markWarning`, `findCritical` and `findUnattended` only call the repository and are not modelled separately.
- MilestoneService.Update: a COMPLETED milestone can still be edited, as in the program, because its own status is not checked.
- IssueService.UpdateStatus: moving an issue to RESOLVED or CLOSED through `updateStatus` does not de-escalate the project. Only `close` does, as in the program.
- IssueRepository.FindForWarning: both thresholds are strict, as in the program: created before now − days, and last warned before now − hours.
- GuildSettingsRepository.FindWithNotificationChannel: a guild whose channel is the empty string is included, while Deliver rejects it, as in the program.
- MilestoneService.UpcomingCandidates: an empty guild id means "all guilds", as in the program's truthiness test.
- ProjectRepository.AddParticipant takes `role` as a required argument. The program's default of MEMBER for an omitted role is not modelled: the one caller, ProjectService.AddParticipant, passes MEMBER.
- ProjectRepository.Create and ProjectRepository.AddParticipant: the database's foreign-key and unique-key failures are returned as errors rather than thrown.
