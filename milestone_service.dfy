/** The milestone rules of src/services/milestone.service.ts. */
module MilestoneService {
  import opened Wrappers
  import opened Enums
  import opened Dates
  import opened Store
  import MilestoneRepository

  /** The checks `create` makes before inserting, in their order. */
  function CreateGuard(projects: map<Id, Project>, data: MilestoneRepository.NewMilestone): (r: Outcome<Error>)
    ensures r == Pass <==>
      && data.projectId in projects
      && projects[data.projectId].status != ProjectStatus.COMPLETED
      && projects[data.projectId].startDate <= data.targetDate <= projects[data.projectId].endDate
    ensures data.projectId !in projects ==> r == Fail(ProjectNotFound)
    ensures data.projectId in projects && projects[data.projectId].status == ProjectStatus.COMPLETED ==>
      r == Fail(ProjectCompleted)
    ensures (data.projectId in projects && projects[data.projectId].status != ProjectStatus.COMPLETED &&
             !(projects[data.projectId].startDate <= data.targetDate <= projects[data.projectId].endDate)) ==>
      r == Fail(TargetOutsidePeriod)
  {
    if data.projectId !in projects then Fail(ProjectNotFound)
    else if projects[data.projectId].status == ProjectStatus.COMPLETED then Fail(ProjectCompleted)
    else if data.targetDate < projects[data.projectId].startDate
         || data.targetDate > projects[data.projectId].endDate then Fail(TargetOutsidePeriod)
    else Pass
  }

  /** `create`: the guard, then the insert. */
  method Create(db: Database, data: MilestoneRepository.NewMilestone) returns (r: Result<Id, Error>)
    requires db.Valid()
    modifies db`milestones, db`nextId
    ensures db.Valid()
    ensures CreateGuard(db.projects, data).Fail? ==>
      r == Err(CreateGuard(db.projects, data).error) && db.milestones == old(db.milestones)
    ensures CreateGuard(db.projects, data) == Pass ==>
      && r.Ok? && r.value !in old(db.milestones)
      && db.milestones == old(db.milestones)[r.value := MilestoneRepository.NewRow(data)]
  {
    if data.projectId !in db.projects {
      return Err(ProjectNotFound);
    }
    var project := db.projects[data.projectId];
    if project.status == ProjectStatus.COMPLETED {
      return Err(ProjectCompleted);
    }
    if data.targetDate < project.startDate || data.targetDate > project.endDate {
      return Err(TargetOutsidePeriod);
    }
    r := MilestoneRepository.Create(db, data);
  }

  /**
   * The checks `update` makes: the milestone exists, its project is not
   * COMPLETED, and a supplied target lies in the project period.  The
   * milestone's own status is not checked.
   */
  function UpdateGuard(projects: map<Id, Project>, ms: map<Id, Milestone>, id: Id,
                       p: MilestoneRepository.MilestonePatch): (r: Outcome<Error>)
    ensures r == Pass <==>
      && id in ms
      && ms[id].projectId in projects
      && projects[ms[id].projectId].status != ProjectStatus.COMPLETED
      && (p.targetDate.Some? ==>
            projects[ms[id].projectId].startDate <= p.targetDate.value <= projects[ms[id].projectId].endDate)
    ensures id !in ms ==> r == Fail(MilestoneNotFound)
    ensures r.Fail? && r.error == TargetOutsidePeriod ==> p.targetDate.Some?
  {
    if id !in ms || ms[id].projectId !in projects then Fail(MilestoneNotFound)
    else
      var project := projects[ms[id].projectId];
      if project.status == ProjectStatus.COMPLETED then Fail(ProjectCompleted)
      else if p.targetDate.Some? && (p.targetDate.value < project.startDate || p.targetDate.value > project.endDate)
      then Fail(TargetOutsidePeriod)
      else Pass
  }

  /** `update`: the guard, then the patch. */
  method Update(db: Database, id: Id, p: MilestoneRepository.MilestonePatch) returns (r: Result<Milestone, Error>)
    requires db.Valid()
    modifies db`milestones
    ensures db.Valid()
    ensures UpdateGuard(db.projects, old(db.milestones), id, p).Fail? ==>
      r == Err(UpdateGuard(db.projects, old(db.milestones), id, p).error) && db.milestones == old(db.milestones)
    ensures UpdateGuard(db.projects, old(db.milestones), id, p) == Pass ==>
      && r == Ok(MilestoneRepository.ApplyPatch(old(db.milestones)[id], p))
      && db.milestones == old(db.milestones)[id := r.value]
  {
    if id !in db.milestones {
      return Err(MilestoneNotFound);
    }
    var project := db.projects[db.milestones[id].projectId];
    if project.status == ProjectStatus.COMPLETED {
      return Err(ProjectCompleted);
    }
    if p.targetDate.Some? {
      if p.targetDate.value < project.startDate || p.targetDate.value > project.endDate {
        return Err(TargetOutsidePeriod);
      }
    }
    r := MilestoneRepository.Update(db, id, p);
  }

  /** The check `complete` makes: the milestone exists and is not already COMPLETED. */
  function CompleteGuard(ms: map<Id, Milestone>, id: Id): (r: Outcome<Error>)
    ensures r == Pass <==> id in ms && ms[id].status != MilestoneStatus.COMPLETED
    ensures id !in ms ==> r == Fail(MilestoneNotFound)
    ensures id in ms && ms[id].status == MilestoneStatus.COMPLETED ==> r == Fail(MilestoneAlreadyCompleted)
  {
    if id !in ms then Fail(MilestoneNotFound)
    else if ms[id].status == MilestoneStatus.COMPLETED then Fail(MilestoneAlreadyCompleted)
    else Pass
  }

  /** `complete`. */
  method Complete(db: Database, id: Id, now: Time) returns (r: Result<Milestone, Error>)
    requires db.Valid()
    modifies db`milestones
    ensures db.Valid()
    ensures CompleteGuard(old(db.milestones), id).Fail? ==>
      r == Err(CompleteGuard(old(db.milestones), id).error) && db.milestones == old(db.milestones)
    ensures CompleteGuard(old(db.milestones), id) == Pass ==>
      && r == Ok(MilestoneRepository.Completed(old(db.milestones)[id], now))
      && db.milestones == old(db.milestones)[id := r.value]
  {
    if id !in db.milestones {
      return Err(MilestoneNotFound);
    }
    if db.milestones[id].status == MilestoneStatus.COMPLETED {
      return Err(MilestoneAlreadyCompleted);
    }
    r := MilestoneRepository.Complete(db, id, now);
  }

  /** A completed milestone cannot be completed again; completing a DELAYED one is allowed. */
  lemma CompleteOnce(ms: map<Id, Milestone>, id: Id, now: Time)
    requires CompleteGuard(ms, id) == Pass
    ensures CompleteGuard(ms[id := MilestoneRepository.Completed(ms[id], now)], id) == Fail(MilestoneAlreadyCompleted)
    ensures id in ms && ms[id].status == DELAYED ==> CompleteGuard(ms, id) == Pass
  {
  }

  /** `findForD7Notification` / `findForD1Notification`: the query for the day n days from now. */
  function FindForDayNotification(ms: map<Id, Milestone>, now: Time, days: int,
                                  field: MilestoneRepository.NotifiedField): (r: set<Id>)
    ensures forall id :: id in r <==>
      && id in ms
      && ms[id].status == SCHEDULED
      && !MilestoneRepository.Flag(ms[id], field)
      && IsDaysBefore(Some(ms[id].targetDate), now, days)
  {
    DayNumberAddDays(now, days);
    MilestoneRepository.FindForNotification(ms, AddDays(now, days), field)
  }

  /** `findForD7Notification`. */
  function FindForD7Notification(ms: map<Id, Milestone>, now: Time): (r: set<Id>)
    ensures forall id :: id in r <==>
      id in ms && ms[id].status == SCHEDULED && !ms[id].notifiedD7
      && DayNumber(ms[id].targetDate) == DayNumber(now) + 7
  {
    FindForDayNotification(ms, now, 7, MilestoneRepository.NotifiedD7)
  }

  /** `findForD1Notification`. */
  function FindForD1Notification(ms: map<Id, Milestone>, now: Time): (r: set<Id>)
    ensures forall id :: id in r <==>
      id in ms && ms[id].status == SCHEDULED && !ms[id].notifiedD1
      && DayNumber(ms[id].targetDate) == DayNumber(now) + 1
  {
    FindForDayNotification(ms, now, 1, MilestoneRepository.NotifiedD1)
  }

  /** The notice kinds a milestone can be marked for. */
  datatype NoticeType = D7 | D1 | DELAYED_NOTICE

  /** The flag each notice kind sets. */
  function FieldFor(t: NoticeType): (f: MilestoneRepository.NotifiedField)
    ensures t == D7 <==> f == MilestoneRepository.NotifiedD7
    ensures t == D1 <==> f == MilestoneRepository.NotifiedD1
    ensures t == DELAYED_NOTICE <==> f == MilestoneRepository.NotifiedDelayed
  {
    match t
    case D7 => MilestoneRepository.NotifiedD7
    case D1 => MilestoneRepository.NotifiedD1
    case DELAYED_NOTICE => MilestoneRepository.NotifiedDelayed
  }

  /** `markNotified(id, type)`. */
  method MarkNotified(db: Database, id: Id, t: NoticeType) returns (r: Outcome<Error>)
    requires db.Valid()
    modifies db`milestones
    ensures db.Valid()
    ensures id !in old(db.milestones) ==> r == Fail(RecordMissing) && db.milestones == old(db.milestones)
    ensures id in old(db.milestones) ==>
      && r == Pass
      && db.milestones == old(db.milestones)[id := MilestoneRepository.SetFlag(old(db.milestones)[id], FieldFor(t))]
  {
    r := MilestoneRepository.MarkNotified(db, id, FieldFor(t));
  }

  datatype MilestoneSummary = MilestoneSummary(
    total: nat, completed: nat, delayed: nat, scheduled: nat, completionRate: nat)

  /** `getStatsByProject`: the repository counts and the completion rate. */
  method GetStatsByProject(db: Database, projectId: Id) returns (s: MilestoneSummary)
    ensures s.total == |MilestonesOf(db.milestones, projectId)|
    ensures s.completed == MilestoneRepository.CountStatus(db.milestones, projectId, MilestoneStatus.COMPLETED)
    ensures s.delayed == MilestoneRepository.CountStatus(db.milestones, projectId, DELAYED)
    ensures s.scheduled == MilestoneRepository.CountStatus(db.milestones, projectId, SCHEDULED)
    ensures s.total == s.completed + s.delayed + s.scheduled
    ensures s.completionRate <= 100
    ensures s.total == 0 ==> s.completionRate == 0
    ensures s.total > 0 ==> (2 * s.completionRate - 1) * s.total <= 200 * s.completed < (2 * s.completionRate + 1) * s.total
  {
    var stats := MilestoneRepository.GetStatsByProject(db, projectId);
    s := MilestoneSummary(stats.total, stats.completed, stats.delayed, stats.scheduled,
                          Rate(stats.completed, stats.total));
  }

  /**
   * The candidates of `findUpcoming`: the guild's SCHEDULED milestones due
   * today or later (an empty guild id, being falsy, filters no guild).
   */
  function UpcomingCandidates(projects: map<Id, Project>, ms: map<Id, Milestone>, g: string, now: Time): (r: set<Id>)
    ensures forall id :: id in r <==>
      && id in ms
      && (g != "" ==> InGuild(projects, ms[id].projectId, g))
      && ms[id].status == SCHEDULED
      && DayNumber(ms[id].targetDate) >= DayNumber(now)
  {
    var found := MilestoneRepository.FindMany(projects, ms,
      MilestoneRepository.MilestoneFilters(None, Some(g), Some(SCHEDULED), None, None));
    var today := StartOfDay(now);
    assert forall id | id in ms :: (ms[id].targetDate >= today <==> DayNumber(ms[id].targetDate) >= DayNumber(now)) by {
      forall id | id in ms {
        BeforeStartOfDay(ms[id].targetDate, now);
      }
    }
    set id | id in found && ms[id].targetDate >= today
  }

  /** The end index of JavaScript `slice(0, limit)` on a list of length n. */
  function SliceEnd(limit: int, n: nat): (k: nat)
    ensures k <= n
    ensures limit >= 0 ==> k == (if limit < n then limit else n)
    ensures limit < 0 ==> k == (if n + limit > 0 then n + limit else 0)
  {
    if limit >= 0 then (if limit < n then limit else n)
    else if n + limit > 0 then n + limit else 0
  }

  /** A non-empty set of milestones has one whose target is earliest. */
  lemma EarliestExists(ms: map<Id, Milestone>, s: set<Id>)
    requires s != {} && s <= ms.Keys
    ensures exists m :: m in s && forall c :: c in s ==> ms[m].targetDate <= ms[c].targetDate
  {
    var x :| x in s;
    if s != {x} {
      EarliestExists(ms, s - {x});
      var m :| m in s - {x} && forall c :: c in s - {x} ==> ms[m].targetDate <= ms[c].targetDate;
      if ms[x].targetDate < ms[m].targetDate {
        assert forall c :: c in s ==> ms[x].targetDate <= ms[c].targetDate;
      } else {
        assert forall c :: c in s ==> ms[m].targetDate <= ms[c].targetDate;
      }
    } else {
      assert forall c :: c in s ==> ms[x].targetDate <= ms[c].targetDate;
    }
  }

  /**
   * `findUpcoming(guildId, limit)`: filter, sort ascending by target and
   * slice.  The result holds distinct candidates in ascending target order,
   * as many as `slice(0, limit)` keeps, and none of the candidates left out
   * is due earlier than one that is kept.
   */
  method FindUpcoming(db: Database, g: string, limit: int, now: Time) returns (r: seq<Id>)
    ensures forall i :: 0 <= i < |r| ==> r[i] in UpcomingCandidates(db.projects, db.milestones, g, now)
    ensures forall i :: 0 <= i < |r| ==> r[i] in db.milestones
    ensures forall i, j :: 0 <= i < j < |r| ==> r[i] != r[j]
    ensures forall i, j :: 0 <= i < j < |r| ==> db.milestones[r[i]].targetDate <= db.milestones[r[j]].targetDate
    ensures |r| == SliceEnd(limit, |UpcomingCandidates(db.projects, db.milestones, g, now)|)
    ensures forall i, c :: 0 <= i < |r| && c in UpcomingCandidates(db.projects, db.milestones, g, now) && c !in r ==>
      db.milestones[r[i]].targetDate <= db.milestones[c].targetDate
  {
    var candidates := UpcomingCandidates(db.projects, db.milestones, g, now);
    r := EarliestFirst(db.milestones, candidates, SliceEnd(limit, |candidates|));
  }

  /**
   * The selection so far: r holds distinct candidates in ascending target
   * order, none due later than a candidate still remaining, and the
   * remaining ones are exactly the candidates not in r.
   */
  ghost predicate Selection(ms: map<Id, Milestone>, candidates: set<Id>, remaining: set<Id>, r: seq<Id>) {
    && candidates <= ms.Keys
    && remaining <= candidates
    && |remaining| + |r| == |candidates|
    && (forall i :: 0 <= i < |r| ==> r[i] in candidates && r[i] !in remaining)
    && (forall c :: c in candidates && c !in remaining ==> c in r)
    && (forall i, j :: 0 <= i < j < |r| ==> r[i] != r[j])
    && (forall i, j :: 0 <= i < j < |r| ==> ms[r[i]].targetDate <= ms[r[j]].targetDate)
    && (forall i, c :: 0 <= i < |r| && c in remaining ==> ms[r[i]].targetDate <= ms[c].targetDate)
  }

  /** Moving an earliest remaining candidate to the end of r keeps the selection. */
  lemma SelectNext(ms: map<Id, Milestone>, candidates: set<Id>, remaining: set<Id>, r: seq<Id>, m: Id)
    requires Selection(ms, candidates, remaining, r)
    requires m in remaining && forall c :: c in remaining ==> ms[m].targetDate <= ms[c].targetDate
    ensures Selection(ms, candidates, remaining - {m}, r + [m])
  {
  }

  /** The n earliest milestones of a set, in ascending target order (sort, then take n). */
  method EarliestFirst(ms: map<Id, Milestone>, candidates: set<Id>, n: nat) returns (r: seq<Id>)
    requires candidates <= ms.Keys && n <= |candidates|
    ensures |r| == n
    ensures forall i :: 0 <= i < |r| ==> r[i] in candidates
    ensures forall i, j :: 0 <= i < j < |r| ==> r[i] != r[j]
    ensures forall i, j :: 0 <= i < j < |r| ==> ms[r[i]].targetDate <= ms[r[j]].targetDate
    ensures forall i, c :: 0 <= i < |r| && c in candidates && c !in r ==> ms[r[i]].targetDate <= ms[c].targetDate
  {
    var remaining := candidates;
    r := [];
    while |r| < n
      invariant |r| <= n
      invariant Selection(ms, candidates, remaining, r)
      decreases n - |r|
    {
      EarliestExists(ms, remaining);
      var m :| m in remaining && forall c :: c in remaining ==> ms[m].targetDate <= ms[c].targetDate;
      SelectNext(ms, candidates, remaining, r, m);
      r := r + [m];
      remaining := remaining - {m};
    }
  }
}
