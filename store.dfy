/**
 * The relational store behind the repositories (the Prisma client), as
 * in-memory tables.  Rows are keyed by their id; the guild settings table
 * is keyed by guild id and the participant table by (project id, user id).
 */
module Store {
  import opened Wrappers
  import opened Enums
  import opened Dates

  /** Row ids generated by the store. */
  type Id = nat

  datatype Project = Project(
    guildId: string,
    name: string,
    description: Option<string>,
    pmId: string,
    startDate: Time,
    endDate: Time,
    status: ProjectStatus,
    channelId: Option<string>,
    manHours: Option<int>,
    personnel: Option<string>,
    createdAt: Time,
    updatedAt: Time)

  datatype Milestone = Milestone(
    projectId: Id,
    name: string,
    description: Option<string>,
    targetDate: Time,
    assigneeId: Option<string>,
    status: MilestoneStatus,
    notifiedD7: bool,
    notifiedD1: bool,
    notifiedDelayed: bool,
    completedAt: Option<Time>)

  datatype Issue = Issue(
    projectId: Id,
    title: string,
    content: string,
    assigneeId: Option<string>,
    impact: IssueImpact,
    status: IssueStatus,
    createdAt: Time,
    lastWarningAt: Option<Time>,
    resolvedAt: Option<Time>,
    closedAt: Option<Time>,
    resolution: Option<string>)

  datatype GuildSettings = GuildSettings(
    notificationChannelId: Option<string>,
    adminRoleId: Option<string>,
    pmRoleId: Option<string>,
    timezone: Option<string>)

  /** The errors the services throw, and the two the store itself raises. */
  datatype Error =
    | ProjectNotFound
    | MilestoneNotFound
    | IssueNotFound
    | ProjectCompleted           // the owning project is COMPLETED
    | TargetOutsidePeriod        // milestone target outside the project period
    | MilestoneAlreadyCompleted
    | IssueClosed                // a CLOSED issue cannot be edited or moved
    | IssueAlreadyClosed
    | EndNotAfterStart           // project end date not after its start date
    | ProjectAlreadyCompleted
    | OpenIssuesRemain(count: nat)
    | PmNotRemovable
    | RecordMissing              // the store: update or delete of a missing row
    | UniqueViolation            // the store: duplicate key on insert
    | ForeignKeyViolation        // the store: insert referring to a missing project

  class Database {
    var projects: map<Id, Project>
    var participants: map<(Id, string), ParticipantRole>
    var milestones: map<Id, Milestone>
    var issues: map<Id, Issue>
    var guildSettings: map<string, GuildSettings>
    var nextId: nat

    /** Generated ids are below the counter, and foreign keys resolve. */
    ghost predicate Valid()
      reads this
    {
      && (forall id :: id in projects ==> id < nextId)
      && (forall id :: id in milestones ==> id < nextId && milestones[id].projectId in projects)
      && (forall id :: id in issues ==> id < nextId && issues[id].projectId in projects)
      && (forall key :: key in participants ==> key.0 in projects)
    }

    constructor ()
      ensures Valid()
      ensures projects == map[] && participants == map[] && milestones == map[]
      ensures issues == map[] && guildSettings == map[]
    {
      projects, participants, milestones := map[], map[], map[];
      issues, guildSettings, nextId := map[], map[], 0;
    }
  }

  /** The project of a row belongs to guild g (the `project: { guildId }` relation filter). */
  predicate InGuild(projects: map<Id, Project>, projectId: Id, g: string) {
    projectId in projects && projects[projectId].guildId == g
  }

  /** The milestones of a project (`where: { projectId }`). */
  function MilestonesOf(ms: map<Id, Milestone>, projectId: Id): set<Id> {
    set id | id in ms && ms[id].projectId == projectId
  }

  /** The issues of a project (`where: { projectId }`). */
  function IssuesOf(issues: map<Id, Issue>, projectId: Id): set<Id> {
    set id | id in issues && issues[id].projectId == projectId
  }

  /** The projects of a guild (`where: { guildId }`). */
  function ProjectsOf(projects: map<Id, Project>, g: string): set<Id> {
    set id | id in projects && projects[id].guildId == g
  }

  /** A subset has no more elements than its superset. */
  lemma SubsetCard(a: set<Id>, b: set<Id>)
    requires a <= b
    ensures |a| <= |b|
  {
    assert b == a + (b - a);
  }
}
