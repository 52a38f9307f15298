/** The project rules of src/services/project.service.ts. */
module ProjectService {
  import opened Wrappers
  import opened Enums
  import opened Dates
  import opened Store
  import ProjectRepository
  import IssueRepository

  /** `create`: refused unless the end date is after the start date. */
  method Create(db: Database, data: ProjectRepository.NewProject, now: Time) returns (r: Result<Id, Error>)
    requires db.Valid()
    modifies db`projects, db`participants, db`nextId
    ensures db.Valid()
    ensures data.endDate <= data.startDate ==>
      r == Err(EndNotAfterStart) && db.projects == old(db.projects) && db.participants == old(db.participants)
    ensures r.Ok? ==> r.value in db.projects && db.projects[r.value].startDate < db.projects[r.value].endDate
    ensures (data.endDate > data.startDate && data.participants.Some? &&
             !ProjectRepository.NoDuplicates(data.participants.value)) ==>
      r == Err(UniqueViolation) && db.projects == old(db.projects) && db.participants == old(db.participants)
    ensures (data.endDate > data.startDate &&
             (data.participants.None? || ProjectRepository.NoDuplicates(data.participants.value))) ==>
      && r.Ok? && r.value !in old(db.projects)
      && db.projects == old(db.projects)[r.value := ProjectRepository.NewRow(data, now)]
      && (forall key :: key in db.participants <==>
            key in old(db.participants) || (key.0 == r.value && data.participants.Some? && key.1 in data.participants.value))
      && (forall key :: key in old(db.participants) ==> db.participants[key] == old(db.participants)[key])
      && (forall d :: (r.value, d) in db.participants ==>
            db.participants[(r.value, d)] == ProjectRepository.RoleFor(d, data.pmId))
  {
    if data.endDate <= data.startDate {
      return Err(EndNotAfterStart);
    }
    r := ProjectRepository.Create(db, data, now);
  }

  datatype MilestoneCounts = MilestoneCounts(total: nat, completed: nat, delayed: nat)
  datatype IssueCounts = IssueCounts(total: nat, open: nat, critical: nat)
  datatype DetailStats = DetailStats(milestones: MilestoneCounts, issues: IssueCounts, progress: int)

  /** The project's milestones with status s. */
  function MilestonesWith(ms: map<Id, Milestone>, projectId: Id, s: MilestoneStatus): (r: set<Id>)
    ensures r <= MilestonesOf(ms, projectId)
    ensures forall id :: id in r <==> id in ms && ms[id].projectId == projectId && ms[id].status == s
  {
    set id | id in ms && ms[id].projectId == projectId && ms[id].status == s
  }

  /** The project's active issues, and its active CRITICAL issues. */
  function OpenIssues(issues: map<Id, Issue>, projectId: Id): (r: set<Id>)
    ensures r <= IssuesOf(issues, projectId)
    ensures forall id :: id in r <==> id in issues && issues[id].projectId == projectId && IsActive(issues[id].status)
  {
    set id | id in issues && issues[id].projectId == projectId && (issues[id].status == OPEN || issues[id].status == IN_ACTION)
  }

  function CriticalIssues(issues: map<Id, Issue>, projectId: Id): (r: set<Id>)
    ensures r <= OpenIssues(issues, projectId)
    ensures forall id :: id in r <==> id in OpenIssues(issues, projectId) && issues[id].impact == CRITICAL
  {
    set id | id in issues && issues[id].projectId == projectId && issues[id].impact == CRITICAL
                          && (issues[id].status == OPEN || issues[id].status == IN_ACTION)
  }

  /**
   * The `stats` of `getDetail`, or None for a missing project: the critical
   * issues are among the open ones, which are among all of them; completed
   * and delayed milestones are disjoint parts of all of them; progress is
   * the period progress at now.
   */
  function GetDetail(projects: map<Id, Project>, ms: map<Id, Milestone>, issues: map<Id, Issue>,
                     id: Id, now: Time): (d: Option<DetailStats>)
    ensures d.None? <==> id !in projects
    ensures d.Some? ==>
      && d.value.issues.critical <= d.value.issues.open <= d.value.issues.total
      && d.value.milestones.completed + d.value.milestones.delayed <= d.value.milestones.total
      && d.value.milestones.total == |MilestonesOf(ms, id)|
      && d.value.issues.total == |IssuesOf(issues, id)|
      && d.value.progress == CalculateProgress(projects[id].startDate, projects[id].endDate, now)
      && d.value.issues.open == |OpenIssues(issues, id)|
      && d.value.issues.critical == |CriticalIssues(issues, id)|
      && d.value.milestones.completed == |MilestonesWith(ms, id, MilestoneStatus.COMPLETED)|
      && d.value.milestones.delayed == |MilestonesWith(ms, id, DELAYED)|
      && 0 <= d.value.progress <= 100
  {
    if id !in projects then None
    else
      var project := projects[id];
      var completed := MilestonesWith(ms, id, MilestoneStatus.COMPLETED);
      var delayed := MilestonesWith(ms, id, DELAYED);
      var open := OpenIssues(issues, id);
      var critical := CriticalIssues(issues, id);
      assert critical <= open <= IssuesOf(issues, id);
      assert completed + delayed <= MilestonesOf(ms, id) && completed !! delayed;
      SubsetCard(critical, open);
      SubsetCard(open, IssuesOf(issues, id));
      SubsetCard(completed + delayed, MilestonesOf(ms, id));
      Some(DetailStats(
        MilestoneCounts(|MilestonesOf(ms, id)|, |completed|, |delayed|),
        IssueCounts(|IssuesOf(issues, id)|, |open|, |critical|),
        CalculateProgress(project.startDate, project.endDate, now)))
  }

  /** The check `updateStatus` makes: a COMPLETED project can only be reopened to IN_PROGRESS. */
  function UpdateStatusGuard(projects: map<Id, Project>, id: Id, s: ProjectStatus): (r: Outcome<Error>)
    ensures r == Pass <==> id in projects && (projects[id].status == ProjectStatus.COMPLETED ==> s == IN_PROGRESS)
    ensures id !in projects ==> r == Fail(ProjectNotFound)
    ensures r.Fail? && id in projects ==> r.error == ProjectCompleted
  {
    if id !in projects then Fail(ProjectNotFound)
    else if projects[id].status == ProjectStatus.COMPLETED && s != IN_PROGRESS then Fail(ProjectCompleted)
    else Pass
  }

  /** `updateStatus`. */
  method UpdateStatus(db: Database, id: Id, s: ProjectStatus, now: Time) returns (r: Result<Project, Error>)
    requires db.Valid()
    modifies db`projects
    ensures db.Valid()
    ensures UpdateStatusGuard(old(db.projects), id, s).Fail? ==>
      r == Err(UpdateStatusGuard(old(db.projects), id, s).error) && db.projects == old(db.projects)
    ensures UpdateStatusGuard(old(db.projects), id, s) == Pass ==>
      && r == Ok(ProjectRepository.ApplyPatch(old(db.projects)[id], ProjectRepository.StatusPatch(s), now))
      && db.projects == old(db.projects)[id := r.value]
      && r.value.status == s
  {
    if id !in db.projects {
      return Err(ProjectNotFound);
    }
    if db.projects[id].status == ProjectStatus.COMPLETED && s != IN_PROGRESS {
      return Err(ProjectCompleted);
    }
    r := ProjectRepository.Update(db, id, ProjectRepository.StatusPatch(s), now);
  }

  /** The check `update` makes: the effective dates (supplied, else stored) keep end after start. */
  function UpdateGuard(projects: map<Id, Project>, id: Id, p: ProjectRepository.ProjectPatch): (r: Outcome<Error>)
    ensures r == Pass <==>
      && id in projects
      && (if p.startDate.Some? then p.startDate.value else projects[id].startDate)
         < (if p.endDate.Some? then p.endDate.value else projects[id].endDate)
    ensures id !in projects ==> r == Fail(ProjectNotFound)
    ensures r.Fail? && id in projects ==> r.error == EndNotAfterStart
  {
    if id !in projects then Fail(ProjectNotFound)
    else
      var startDate := if p.startDate.Some? then p.startDate.value else projects[id].startDate;
      var endDate := if p.endDate.Some? then p.endDate.value else projects[id].endDate;
      if endDate <= startDate then Fail(EndNotAfterStart) else Pass
  }

  /** `update`: a successful update keeps the period well formed. */
  method Update(db: Database, id: Id, p: ProjectRepository.ProjectPatch, now: Time) returns (r: Result<Project, Error>)
    requires db.Valid()
    modifies db`projects
    ensures db.Valid()
    ensures UpdateGuard(old(db.projects), id, p).Fail? ==>
      r == Err(UpdateGuard(old(db.projects), id, p).error) && db.projects == old(db.projects)
    ensures UpdateGuard(old(db.projects), id, p) == Pass ==>
      && r == Ok(ProjectRepository.ApplyPatch(old(db.projects)[id], p, now))
      && db.projects == old(db.projects)[id := r.value]
      && r.value.startDate < r.value.endDate
  {
    if id !in db.projects {
      return Err(ProjectNotFound);
    }
    var project := db.projects[id];
    var startDate := if p.startDate.Some? then p.startDate.value else project.startDate;
    var endDate := if p.endDate.Some? then p.endDate.value else project.endDate;
    if endDate <= startDate {
      return Err(EndNotAfterStart);
    }
    r := ProjectRepository.Update(db, id, p, now);
  }

  /** The issues `complete` looks up: `findMany({ projectId, openOnly: true })`. */
  function BlockingIssues(projects: map<Id, Project>, issues: map<Id, Issue>, id: Id): (r: set<Id>)
    ensures forall j :: j in r <==> j in issues && issues[j].projectId == id && IsActive(issues[j].status)
  {
    IssueRepository.FindMany(projects, issues, IssueRepository.IssueFilters(Some(id), None, None, None, None, true))
  }

  /**
   * The checks `complete` makes: the project exists, is not already
   * COMPLETED, and has no OPEN or IN_ACTION issue; the error carries how
   * many remain.
   */
  function CompleteGuard(projects: map<Id, Project>, issues: map<Id, Issue>, id: Id): (r: Outcome<Error>)
    ensures r == Pass <==>
      && id in projects
      && projects[id].status != ProjectStatus.COMPLETED
      && (forall j :: j in issues && issues[j].projectId == id ==> !IsActive(issues[j].status))
    ensures id !in projects ==> r == Fail(ProjectNotFound)
    ensures id in projects && projects[id].status == ProjectStatus.COMPLETED ==> r == Fail(ProjectAlreadyCompleted)
    ensures r.Fail? && r.error.OpenIssuesRemain? ==>
      r.error.count > 0 && r.error.count == |BlockingIssues(projects, issues, id)|
  {
    if id !in projects then Fail(ProjectNotFound)
    else if projects[id].status == ProjectStatus.COMPLETED then Fail(ProjectAlreadyCompleted)
    else
      var openIssues := BlockingIssues(projects, issues, id);
      if |openIssues| > 0 then Fail(OpenIssuesRemain(|openIssues|)) else Pass
  }

  /** `complete`. */
  method Complete(db: Database, id: Id, now: Time) returns (r: Result<Project, Error>)
    requires db.Valid()
    modifies db`projects
    ensures db.Valid()
    ensures CompleteGuard(old(db.projects), db.issues, id).Fail? ==>
      r == Err(CompleteGuard(old(db.projects), db.issues, id).error) && db.projects == old(db.projects)
    ensures CompleteGuard(old(db.projects), db.issues, id) == Pass ==>
      && r == Ok(ProjectRepository.ApplyPatch(old(db.projects)[id], ProjectRepository.StatusPatch(ProjectStatus.COMPLETED), now))
      && db.projects == old(db.projects)[id := r.value]
      && r.value.status == ProjectStatus.COMPLETED
  {
    if id !in db.projects {
      return Err(ProjectNotFound);
    }
    if db.projects[id].status == ProjectStatus.COMPLETED {
      return Err(ProjectAlreadyCompleted);
    }
    var openIssues := BlockingIssues(db.projects, db.issues, id);
    if |openIssues| > 0 {
      return Err(OpenIssuesRemain(|openIssues|));
    }
    r := ProjectRepository.Update(db, id, ProjectRepository.StatusPatch(ProjectStatus.COMPLETED), now);
  }

  /** `addParticipant`: a MEMBER row for an existing project. */
  method AddParticipant(db: Database, projectId: Id, discordId: string) returns (r: Outcome<Error>)
    requires db.Valid()
    modifies db`participants
    ensures db.Valid()
    ensures projectId !in db.projects ==> r == Fail(ProjectNotFound) && db.participants == old(db.participants)
    ensures projectId in db.projects && (projectId, discordId) in old(db.participants) ==>
      r == Fail(UniqueViolation) && db.participants == old(db.participants)
    ensures projectId in db.projects && (projectId, discordId) !in old(db.participants) ==>
      r == Pass && db.participants == old(db.participants)[(projectId, discordId) := MEMBER]
  {
    if projectId !in db.projects {
      return Fail(ProjectNotFound);
    }
    r := ProjectRepository.AddParticipant(db, projectId, discordId, MEMBER);
  }

  /** The check `removeParticipant` makes: the project exists and the user is not its PM. */
  function RemoveGuard(projects: map<Id, Project>, projectId: Id, discordId: string): (r: Outcome<Error>)
    ensures r == Pass <==> projectId in projects && projects[projectId].pmId != discordId
    ensures projectId !in projects ==> r == Fail(ProjectNotFound)
    ensures projectId in projects && projects[projectId].pmId == discordId ==> r == Fail(PmNotRemovable)
  {
    if projectId !in projects then Fail(ProjectNotFound)
    else if projects[projectId].pmId == discordId then Fail(PmNotRemovable)
    else Pass
  }

  /** `removeParticipant`: never removes the PM's row. */
  method RemoveParticipant(db: Database, projectId: Id, discordId: string) returns (r: Outcome<Error>)
    requires db.Valid()
    modifies db`participants
    ensures db.Valid()
    ensures RemoveGuard(db.projects, projectId, discordId).Fail? ==>
      r == RemoveGuard(db.projects, projectId, discordId) && db.participants == old(db.participants)
    ensures RemoveGuard(db.projects, projectId, discordId) == Pass ==>
      && ((projectId, discordId) !in old(db.participants) ==>
            r == Fail(RecordMissing) && db.participants == old(db.participants))
      && ((projectId, discordId) in old(db.participants) ==>
            r == Pass && db.participants == old(db.participants) - {(projectId, discordId)})
    ensures projectId in db.projects ==>
      (projectId, db.projects[projectId].pmId) in old(db.participants) ==>
      (projectId, db.projects[projectId].pmId) in db.participants
  {
    if projectId !in db.projects {
      return Fail(ProjectNotFound);
    }
    if db.projects[projectId].pmId == discordId {
      return Fail(PmNotRemovable);
    }
    r := ProjectRepository.RemoveParticipant(db, projectId, discordId);
  }

  datatype GuildStats = GuildStats(total: nat, active: int, byStatus: map<ProjectStatus, nat>)

  /**
   * `getGuildStats`: the total is the sum of the per-status counts, that is
   * the guild's project count, and active is the total less the COMPLETED
   * count, that is the count of `countActiveByGuild`.
   */
  method GetGuildStats(db: Database, g: string) returns (s: GuildStats)
    ensures s.total == |ProjectsOf(db.projects, g)|
    ensures s.active == ProjectRepository.CountActiveByGuild(db.projects, g)
    ensures forall st :: st in s.byStatus <==> ProjectRepository.CountStatus(db.projects, g, st) > 0
    ensures forall st :: st in s.byStatus ==> s.byStatus[st] == ProjectRepository.CountStatus(db.projects, g, st)
  {
    var stats := ProjectRepository.GetStatsByGuild(db, g);
    var total := ProjectRepository.Total(stats);
    var active := total - ProjectRepository.Get(stats, ProjectStatus.COMPLETED);
    s := GuildStats(total, active, stats);
  }
}
