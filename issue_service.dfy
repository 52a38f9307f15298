/** The issue rules of src/services/issue.service.ts, with their effect on the owning project. */
module IssueService {
  import opened Wrappers
  import opened Enums
  import opened Dates
  import opened Store
  import IssueRepository
  import ProjectRepository

  /** The checks `create` makes before inserting. */
  function CreateGuard(projects: map<Id, Project>, data: IssueRepository.NewIssue): (r: Outcome<Error>)
    ensures r == Pass <==> data.projectId in projects && projects[data.projectId].status != ProjectStatus.COMPLETED
    ensures data.projectId !in projects ==> r == Fail(ProjectNotFound)
    ensures data.projectId in projects && projects[data.projectId].status == ProjectStatus.COMPLETED ==>
      r == Fail(ProjectCompleted)
  {
    if data.projectId !in projects then Fail(ProjectNotFound)
    else if projects[data.projectId].status == ProjectStatus.COMPLETED then Fail(ProjectCompleted)
    else Pass
  }

  /** Whether registering an issue of this impact moves a project in status s to ISSUE. */
  predicate Escalates(impact: IssueImpact, s: ProjectStatus) {
    impact == CRITICAL && s == IN_PROGRESS
  }

  /** The project status after registering an issue: only a CRITICAL issue on an IN_PROGRESS project changes it. */
  function StatusAfterCreate(impact: IssueImpact, s: ProjectStatus): (t: ProjectStatus)
    ensures t != s <==> impact == CRITICAL && s == IN_PROGRESS
    ensures t != s ==> t == ISSUE
    ensures impact != CRITICAL ==> t == s
  {
    if Escalates(impact, s) then ISSUE else s
  }

  /**
   * `create`: the guards, the insert, then the escalation: the project
   * becomes ISSUE iff the issue is CRITICAL and the project was IN_PROGRESS.
   */
  method Create(db: Database, data: IssueRepository.NewIssue, now: Time) returns (r: Result<Id, Error>)
    requires db.Valid()
    modifies db`issues, db`nextId, db`projects
    ensures db.Valid()
    ensures CreateGuard(old(db.projects), data).Fail? ==>
      && r == Err(CreateGuard(old(db.projects), data).error)
      && db.issues == old(db.issues) && db.projects == old(db.projects)
    ensures CreateGuard(old(db.projects), data) == Pass ==>
      && r.Ok? && r.value !in old(db.issues)
      && db.issues == old(db.issues)[r.value := IssueRepository.NewRow(data, now)]
      && db.projects.Keys == old(db.projects).Keys
      && (forall pid :: pid in old(db.projects) && pid != data.projectId ==> db.projects[pid] == old(db.projects)[pid])
      && db.projects[data.projectId].status == StatusAfterCreate(data.impact, old(db.projects)[data.projectId].status)
      && (!Escalates(data.impact, old(db.projects)[data.projectId].status) ==> db.projects == old(db.projects))
      && (Escalates(data.impact, old(db.projects)[data.projectId].status) ==>
            db.projects == old(db.projects)[data.projectId :=
              ProjectRepository.ApplyPatch(old(db.projects)[data.projectId], ProjectRepository.StatusPatch(ISSUE), now)])
  {
    if data.projectId !in db.projects {
      return Err(ProjectNotFound);
    }
    var project := db.projects[data.projectId];
    if project.status == ProjectStatus.COMPLETED {
      return Err(ProjectCompleted);
    }
    r := IssueRepository.Create(db, data, now);
    if data.impact == CRITICAL && project.status == IN_PROGRESS {
      var _ := ProjectRepository.Update(db, data.projectId, ProjectRepository.StatusPatch(ISSUE), now);
    }
  }

  /** The check `update` and `updateStatus` make: the issue exists and is not CLOSED. */
  function EditGuard(issues: map<Id, Issue>, id: Id): (r: Outcome<Error>)
    ensures r == Pass <==> id in issues && issues[id].status != CLOSED
    ensures id !in issues ==> r == Fail(IssueNotFound)
    ensures id in issues && issues[id].status == CLOSED ==> r == Fail(IssueClosed)
  {
    if id !in issues then Fail(IssueNotFound)
    else if issues[id].status == CLOSED then Fail(IssueClosed)
    else Pass
  }

  /** `update`: any field, status included, of an issue that is not CLOSED. */
  method Update(db: Database, id: Id, p: IssueRepository.IssuePatch) returns (r: Result<Issue, Error>)
    requires db.Valid()
    modifies db`issues
    ensures db.Valid()
    ensures EditGuard(old(db.issues), id).Fail? ==>
      r == Err(EditGuard(old(db.issues), id).error) && db.issues == old(db.issues)
    ensures EditGuard(old(db.issues), id) == Pass ==>
      && r == Ok(IssueRepository.ApplyPatch(old(db.issues)[id], p))
      && db.issues == old(db.issues)[id := r.value]
  {
    if id !in db.issues {
      return Err(IssueNotFound);
    }
    if db.issues[id].status == CLOSED {
      return Err(IssueClosed);
    }
    r := IssueRepository.Update(db, id, p);
  }

  /**
   * `updateStatus`: any move out of a status other than CLOSED, with the
   * repository's stamping and no resolution; the project is never touched.
   */
  method UpdateStatus(db: Database, id: Id, s: IssueStatus, now: Time) returns (r: Result<Issue, Error>)
    requires db.Valid()
    modifies db`issues
    ensures db.Valid()
    ensures db.projects == old(db.projects)
    ensures EditGuard(old(db.issues), id).Fail? ==>
      r == Err(EditGuard(old(db.issues), id).error) && db.issues == old(db.issues)
    ensures EditGuard(old(db.issues), id) == Pass ==>
      && r == Ok(IssueRepository.StatusUpdated(old(db.issues)[id], s, None, now))
      && db.issues == old(db.issues)[id := r.value]
  {
    if id !in db.issues {
      return Err(IssueNotFound);
    }
    if db.issues[id].status == CLOSED {
      return Err(IssueClosed);
    }
    r := IssueRepository.UpdateStatus(db, id, s, None, now);
  }

  /** The check `close` makes: the issue exists and is not already CLOSED. */
  function CloseGuard(issues: map<Id, Issue>, id: Id): (r: Outcome<Error>)
    ensures r == Pass <==> id in issues && issues[id].status != CLOSED
    ensures id !in issues ==> r == Fail(IssueNotFound)
    ensures id in issues && issues[id].status == CLOSED ==> r == Fail(IssueAlreadyClosed)
  {
    if id !in issues then Fail(IssueNotFound)
    else if issues[id].status == CLOSED then Fail(IssueAlreadyClosed)
    else Pass
  }

  /** The other active CRITICAL issues of a project: `findCritical()` filtered by project, without `id`. */
  function RemainingCritical(projects: map<Id, Project>, issues: map<Id, Issue>, projectId: Id, id: Id): (r: set<Id>)
    ensures forall j :: j in r <==>
      j in issues && j != id && issues[j].projectId == projectId && issues[j].impact == CRITICAL && IsActive(issues[j].status)
  {
    set j | j in IssueRepository.FindCritical(projects, issues, None) && issues[j].projectId == projectId && j != id
  }

  /** Rewriting issue `id` does not change which other critical issues remain. */
  lemma RemainingIgnoresClosed(projects: map<Id, Project>, issues: map<Id, Issue>, projectId: Id, id: Id, row: Issue)
    ensures RemainingCritical(projects, issues[id := row], projectId, id) == RemainingCritical(projects, issues, projectId, id)
  {
  }

  /** Whether closing issue `id` returns its project, in status s, to IN_PROGRESS. */
  predicate Deescalates(projects: map<Id, Project>, issues: map<Id, Issue>, id: Id, s: ProjectStatus)
    requires id in issues
  {
    && issues[id].impact == CRITICAL
    && RemainingCritical(projects, issues, issues[id].projectId, id) == {}
    && s == ISSUE
  }

  /**
   * `close`: the issue becomes CLOSED (with the repository's stamping), and
   * closing the last active CRITICAL issue of a project in ISSUE returns the
   * project to IN_PROGRESS.  Closing any other issue leaves the projects alone.
   */
  method Close(db: Database, id: Id, resolution: Option<string>, now: Time) returns (r: Result<Issue, Error>)
    requires db.Valid()
    modifies db`issues, db`projects
    ensures db.Valid()
    ensures CloseGuard(old(db.issues), id).Fail? ==>
      && r == Err(CloseGuard(old(db.issues), id).error)
      && db.issues == old(db.issues) && db.projects == old(db.projects)
    ensures CloseGuard(old(db.issues), id) == Pass ==>
      var pid := old(db.issues)[id].projectId;
      && r == Ok(IssueRepository.StatusUpdated(old(db.issues)[id], CLOSED, resolution, now))
      && db.issues == old(db.issues)[id := r.value]
      && db.issues[id].status == CLOSED
      && db.projects.Keys == old(db.projects).Keys
      && (forall q :: q in old(db.projects) && q != pid ==> db.projects[q] == old(db.projects)[q])
      && (Deescalates(old(db.projects), old(db.issues), id, old(db.projects)[pid].status) ==>
            db.projects[pid] == ProjectRepository.ApplyPatch(old(db.projects)[pid], ProjectRepository.StatusPatch(IN_PROGRESS), now))
      && (!Deescalates(old(db.projects), old(db.issues), id, old(db.projects)[pid].status) ==>
            db.projects == old(db.projects))
  {
    if id !in db.issues {
      return Err(IssueNotFound);
    }
    var issue := db.issues[id];
    if issue.status == CLOSED {
      return Err(IssueAlreadyClosed);
    }
    ghost var before := db.issues;
    r := IssueRepository.UpdateStatus(db, id, CLOSED, resolution, now);
    if issue.impact == CRITICAL {
      var projectCritical := RemainingCritical(db.projects, db.issues, issue.projectId, id);
      RemainingIgnoresClosed(db.projects, before, issue.projectId, id, r.value);
      if projectCritical == {} {
        if issue.projectId in db.projects && db.projects[issue.projectId].status == ISSUE {
          var _ := ProjectRepository.Update(db, issue.projectId, ProjectRepository.StatusPatch(IN_PROGRESS), now);
        }
      }
    }
  }

  /** The project status after closing an issue, as `close` leaves it. */
  function StatusAfterClose(projects: map<Id, Project>, issues: map<Id, Issue>, id: Id, s: ProjectStatus): (t: ProjectStatus)
    requires id in issues
    ensures t != s <==> s == ISSUE && issues[id].impact == CRITICAL
                        && (forall j ::
                              (j in issues && j != id && issues[j].projectId == issues[id].projectId
                               && issues[j].impact == CRITICAL) ==> !IsActive(issues[j].status))
    ensures t != s ==> t == IN_PROGRESS
    ensures issues[id].impact != CRITICAL ==> t == s
  {
    if Deescalates(projects, issues, id, s) then IN_PROGRESS else s
  }

  /** Create then close a lone CRITICAL issue on an IN_PROGRESS project: the project goes to ISSUE and back. */
  lemma EscalationRoundTrip(projects: map<Id, Project>, issues: map<Id, Issue>, id: Id)
    requires id in issues && issues[id].impact == CRITICAL
    requires forall j :: j in issues && j != id && issues[j].projectId == issues[id].projectId ==> issues[j].impact != CRITICAL
    ensures StatusAfterClose(projects, issues, id, StatusAfterCreate(CRITICAL, IN_PROGRESS)) == IN_PROGRESS
  {
  }

  datatype IssueSummary = IssueSummary(
    total: nat, open: nat, inAction: nat, resolved: nat, closed: nat,
    byImpact: map<IssueImpact, nat>, resolutionRate: nat)

  /** `getStatsByProject`: the repository counts and the resolution rate. */
  method GetStatsByProject(db: Database, projectId: Id) returns (s: IssueSummary)
    ensures s.total == |IssuesOf(db.issues, projectId)|
    ensures s.total == s.open + s.inAction + s.resolved + s.closed
    ensures s.open == IssueRepository.CountStatus(db.issues, projectId, OPEN)
    ensures s.inAction == IssueRepository.CountStatus(db.issues, projectId, IN_ACTION)
    ensures s.resolved == IssueRepository.CountStatus(db.issues, projectId, RESOLVED)
    ensures s.closed == IssueRepository.CountStatus(db.issues, projectId, CLOSED)
    ensures forall k :: k in s.byImpact <==> IssueRepository.CountImpact(db.issues, projectId, k) > 0
    ensures forall k :: k in s.byImpact ==> s.byImpact[k] == IssueRepository.CountImpact(db.issues, projectId, k)
    ensures s.resolutionRate <= 100
    ensures s.total == 0 ==> s.resolutionRate == 0
    ensures s.total > 0 ==>
      (2 * s.resolutionRate - 1) * s.total <= 200 * (s.resolved + s.closed) < (2 * s.resolutionRate + 1) * s.total
  {
    var stats := IssueRepository.GetStatsByProject(db, projectId);
    s := IssueSummary(stats.total, stats.open, stats.inAction, stats.resolved, stats.closed, stats.byImpact,
                      Rate(stats.resolved + stats.closed, stats.total));
  }

  /** `isCritical(impact)`: the impact string is exactly "CRITICAL". */
  function IsCritical(impact: string): (r: bool)
    ensures r <==> impact == ImpactName(CRITICAL)
  {
    impact == "CRITICAL"
  }

  /** Of the stored impact names, only CRITICAL's is critical. */
  lemma IsCriticalOnlyForCritical(i: IssueImpact)
    ensures IsCritical(ImpactName(i)) <==> i == CRITICAL
  {
    match i
    case LOW => assert ImpactName(i)[0] == 'L';
    case MEDIUM => assert ImpactName(i)[0] == 'M';
    case HIGH => assert ImpactName(i)[0] == 'H';
    case CRITICAL =>
  }
}
