/**
 * `weeklyReportScheduler.run` and `generateReportData`
 * (src/schedulers/weekly-report.scheduler.ts): one report of project,
 * milestone and issue counts per guild with a notification channel.
 */
module WeeklyReportScheduler {
  import opened Wrappers
  import opened Enums
  import opened Dates
  import opened Store
  import ProjectRepository
  import GuildSettingsRepository
  import Notifier

  /** The weekday with Monday as 0; day 0 of the epoch was a Thursday. */
  function Weekday(t: Time): (w: nat)
    ensures w < 7
  {
    (DayNumber(t) + 3) % 7
  }

  /** `startOfWeek(now, { weekStartsOn: 1 })`: midnight of the Monday of now's week. */
  function StartOfWeek(now: Time): (r: Time)
    ensures r % MsPerDay == 0 && Weekday(r) == 0
    ensures r <= now < r + 7 * MsPerDay
  {
    var w := Weekday(now);
    var k := DayNumber(now) - w;
    DayNumberOfDayStart(k);
    assert (k + 3) % 7 == 0 by {
      assert DayNumber(now) + 3 == 7 * ((DayNumber(now) + 3) / 7) + w;
    }
    StartOfDay(now) - w * MsPerDay
  }

  /** `endOfWeek(now, { weekStartsOn: 1 })`: the last millisecond of the Sunday of now's week. */
  function EndOfWeek(now: Time): (r: Time)
    ensures StartOfWeek(now) <= now <= r
    ensures r + 1 == StartOfWeek(now) + 7 * MsPerDay
  {
    StartOfWeek(now) + 7 * MsPerDay - 1
  }

  /**
   * The window of the "this week" counts: from the Monday of the previous
   * week (`subDays(weekStart, 7)`) to the end of this week, fourteen days.
   */
  function Window(now: Time): (w: (Time, Time))
    ensures w.0 % MsPerDay == 0 && Weekday(w.0) == 0
    ensures w.0 + 7 * MsPerDay <= now <= w.1
    ensures w.1 - w.0 == 14 * MsPerDay - 1
  {
    var weekStart := StartOfWeek(now);
    var lastWeekStart := SubDays(weekStart, 7);
    assert lastWeekStart == (weekStart / MsPerDay - 7) * MsPerDay;
    DayNumberOfDayStart(weekStart / MsPerDay - 7);
    DayNumberOfDayStart(weekStart / MsPerDay);
    (lastWeekStart, EndOfWeek(now))
  }

  datatype ProjectCounts = ProjectCounts(total: nat, active: nat, completed: nat, withIssues: nat)
  datatype MilestoneCounts = MilestoneCounts(completed: nat, delayed: nat, upcoming: nat)
  /** `opened` of the source, a keyword here. */
  datatype IssueCounts = IssueCounts(newlyOpened: nat, closed: nat, critical: nat)
  datatype ReportData = ReportData(projects: ProjectCounts, milestones: MilestoneCounts, issues: IssueCounts)

  /** The guild's COMPLETED projects last updated inside [from, to]. */
  function CompletedProjects(projects: map<Id, Project>, g: string, from: Time, to: Time): (r: set<Id>)
    ensures forall id :: id in r <==>
      id in projects && projects[id].guildId == g && projects[id].status == ProjectStatus.COMPLETED
      && from <= projects[id].updatedAt <= to
  {
    set id | id in projects && projects[id].guildId == g && projects[id].status == ProjectStatus.COMPLETED
             && from <= projects[id].updatedAt <= to
  }

  /** The guild's milestones. */
  function GuildMilestones(projects: map<Id, Project>, ms: map<Id, Milestone>, g: string): set<Id> {
    set id | id in ms && InGuild(projects, ms[id].projectId, g)
  }

  /** The guild's COMPLETED milestones completed inside [from, to]. */
  function CompletedMilestones(projects: map<Id, Project>, ms: map<Id, Milestone>, g: string,
                               from: Time, to: Time): (r: set<Id>)
    ensures forall id :: id in r <==>
      id in ms && InGuild(projects, ms[id].projectId, g) && ms[id].status == MilestoneStatus.COMPLETED
      && ms[id].completedAt.Some? && from <= ms[id].completedAt.value <= to
  {
    set id | id in ms && InGuild(projects, ms[id].projectId, g) && ms[id].status == MilestoneStatus.COMPLETED
             && ms[id].completedAt.Some? && from <= ms[id].completedAt.value <= to
  }

  /** The guild's DELAYED milestones. */
  function DelayedMilestones(projects: map<Id, Project>, ms: map<Id, Milestone>, g: string): (r: set<Id>)
    ensures r <= GuildMilestones(projects, ms, g)
    ensures forall id :: id in r <==> id in ms && InGuild(projects, ms[id].projectId, g) && ms[id].status == DELAYED
  {
    set id | id in ms && InGuild(projects, ms[id].projectId, g) && ms[id].status == DELAYED
  }

  /** The guild's SCHEDULED milestones due between now and `subDays(now, -7)`. */
  function UpcomingMilestones(projects: map<Id, Project>, ms: map<Id, Milestone>, g: string, now: Time): (r: set<Id>)
    ensures forall id :: id in r <==>
      && id in ms && InGuild(projects, ms[id].projectId, g) && ms[id].status == SCHEDULED
      && now <= ms[id].targetDate <= now + 7 * MsPerDay
  {
    set id | id in ms && InGuild(projects, ms[id].projectId, g) && ms[id].status == SCHEDULED
             && now <= ms[id].targetDate <= SubDays(now, -7)
  }

  /** The guild's issues created inside [from, to]. */
  function OpenedIssues(projects: map<Id, Project>, issues: map<Id, Issue>, g: string, from: Time, to: Time): (r: set<Id>)
    ensures forall id :: id in r <==>
      id in issues && InGuild(projects, issues[id].projectId, g) && from <= issues[id].createdAt <= to
  {
    set id | id in issues && InGuild(projects, issues[id].projectId, g) && from <= issues[id].createdAt <= to
  }

  /** The guild's CLOSED issues closed inside [from, to]. */
  function ClosedIssues(projects: map<Id, Project>, issues: map<Id, Issue>, g: string, from: Time, to: Time): (r: set<Id>)
    ensures forall id :: id in r <==>
      id in issues && InGuild(projects, issues[id].projectId, g) && issues[id].status == CLOSED
      && issues[id].closedAt.Some? && from <= issues[id].closedAt.value <= to
  {
    set id | id in issues && InGuild(projects, issues[id].projectId, g) && issues[id].status == CLOSED
             && issues[id].closedAt.Some? && from <= issues[id].closedAt.value <= to
  }

  /** The guild's CRITICAL issues that are OPEN or IN_ACTION. */
  function CriticalIssues(projects: map<Id, Project>, issues: map<Id, Issue>, g: string): (r: set<Id>)
    ensures forall id :: id in r <==>
      id in issues && InGuild(projects, issues[id].projectId, g) && issues[id].impact == CRITICAL
      && IsActive(issues[id].status)
  {
    set id | id in issues && InGuild(projects, issues[id].projectId, g) && issues[id].impact == CRITICAL
             && issues[id].status in {OPEN, IN_ACTION}
  }

  /**
   * `generateReportData(guildId)`.  Active and COMPLETED projects split the
   * total; the projects completed in the window are among the COMPLETED ones
   * and the ISSUE projects among the active ones; the three milestone counts
   * select disjoint parts of the guild's milestones.
   */
  function GenerateReportData(projects: map<Id, Project>, ms: map<Id, Milestone>, issues: map<Id, Issue>,
                              g: string, now: Time): (r: ReportData)
    ensures r.projects.total == |ProjectsOf(projects, g)|
    ensures r.projects.active + ProjectRepository.CountStatus(projects, g, ProjectStatus.COMPLETED) == r.projects.total
    ensures r.projects.completed <= r.projects.total - r.projects.active
    ensures r.projects.withIssues <= r.projects.active
    ensures r.milestones.completed + r.milestones.delayed + r.milestones.upcoming <= |GuildMilestones(projects, ms, g)|
    ensures r.projects.withIssues == ProjectRepository.CountStatus(projects, g, ISSUE)
    ensures r.projects.completed == |CompletedProjects(projects, g, Window(now).0, Window(now).1)|
    ensures r.milestones.completed == |CompletedMilestones(projects, ms, g, Window(now).0, Window(now).1)|
    ensures r.milestones.delayed == |DelayedMilestones(projects, ms, g)|
    ensures r.milestones.upcoming == |UpcomingMilestones(projects, ms, g, now)|
    ensures r.issues.newlyOpened == |OpenedIssues(projects, issues, g, Window(now).0, Window(now).1)|
    ensures r.issues.closed == |ClosedIssues(projects, issues, g, Window(now).0, Window(now).1)|
    ensures r.issues.critical == |CriticalIssues(projects, issues, g)|
  {
    var (from, to) := Window(now);
    var completed := CompletedProjects(projects, g, from, to);
    var active := ProjectRepository.CountActiveByGuild(projects, g);
    var withIssues := ProjectRepository.CountStatus(projects, g, ISSUE);
    var doneMs := CompletedMilestones(projects, ms, g, from, to);
    var delayedMs := DelayedMilestones(projects, ms, g);
    var upcomingMs := UpcomingMilestones(projects, ms, g, now);
    ProjectFacts(projects, g, from, to);
    MilestoneFacts(projects, ms, g, now, from, to);
    ReportData(
      ProjectCounts(|ProjectsOf(projects, g)|, active, |completed|, withIssues),
      MilestoneCounts(|doneMs|, |delayedMs|, |upcomingMs|),
      IssueCounts(|OpenedIssues(projects, issues, g, from, to)|, |ClosedIssues(projects, issues, g, from, to)|,
                  |CriticalIssues(projects, issues, g)|))
  }

  /** The window's COMPLETED projects are COMPLETED; the ISSUE projects are active. */
  lemma ProjectFacts(projects: map<Id, Project>, g: string, from: Time, to: Time)
    ensures |CompletedProjects(projects, g, from, to)| <= ProjectRepository.CountStatus(projects, g, ProjectStatus.COMPLETED)
    ensures ProjectRepository.CountStatus(projects, g, ISSUE) <= |ProjectRepository.ActiveIds(projects, g)|
  {
    var done := ProjectRepository.WithStatus(projects, g, ProjectStatus.COMPLETED);
    var troubled := ProjectRepository.WithStatus(projects, g, ISSUE);
    SubsetCard(CompletedProjects(projects, g, from, to), done);
    assert troubled <= ProjectRepository.ActiveIds(projects, g) by {
      forall id | id in troubled
        ensures id in ProjectRepository.ActiveIds(projects, g)
      {
        assert projects[id].status !in {ProjectStatus.COMPLETED};
      }
    }
    SubsetCard(troubled, ProjectRepository.ActiveIds(projects, g));
  }

  /** The completed, delayed and upcoming milestones are disjoint parts of the guild's milestones. */
  lemma MilestoneFacts(projects: map<Id, Project>, ms: map<Id, Milestone>, g: string, now: Time, from: Time, to: Time)
    ensures |CompletedMilestones(projects, ms, g, from, to)| + |DelayedMilestones(projects, ms, g)|
            + |UpcomingMilestones(projects, ms, g, now)| <= |GuildMilestones(projects, ms, g)|
  {
    var a, b, c := CompletedMilestones(projects, ms, g, from, to), DelayedMilestones(projects, ms, g),
                   UpcomingMilestones(projects, ms, g, now);
    assert a !! b && (a + b) !! c;
    assert |a + b| == |a| + |b|;
    assert |a + b + c| == |a + b| + |c|;
    SubsetCard(a + b + c, GuildMilestones(projects, ms, g));
  }

  /**
   * `run`: a report for every guild with a notification channel id;
   * `delivers(g)` is the client's answer for guild g's report.  A failed
   * send skips only that guild.  Only guilds whose channel id is a
   * non-empty string can be reached.  The reports do not depend on the
   * sends, so they are built up front and the loop only delivers them.
   */
  method Run(db: Database, now: Time, delivers: string -> bool) returns (reports: map<string, ReportData>, sent: set<string>)
    ensures reports.Keys == GuildSettingsRepository.FindWithNotificationChannel(db.guildSettings)
    ensures forall g :: g in reports ==> reports[g] == GenerateReportData(db.projects, db.milestones, db.issues, g, now)
    ensures sent <= reports.Keys
    ensures forall g :: g in reports ==> (g in sent <==> Notifier.HasChannel(db.guildSettings, g) && delivers(g))
    ensures forall g :: g in sent ==> Notifier.HasChannel(db.guildSettings, g)
  {
    var guilds := GuildSettingsRepository.FindWithNotificationChannel(db.guildSettings);
    reports := map g | g in guilds :: GenerateReportData(db.projects, db.milestones, db.issues, g, now);
    var remaining := guilds;
    sent := {};
    while remaining != {}
      invariant remaining <= guilds
      invariant sent <= guilds - remaining
      invariant forall g :: g in sent ==> Notifier.HasChannel(db.guildSettings, g)
      invariant forall g :: g in guilds && g !in remaining ==>
        (g in sent <==> Notifier.HasChannel(db.guildSettings, g) && delivers(g))
      decreases |remaining|
    {
      var g :| g in remaining;
      var ok := Notifier.Deliver(db, g, delivers(g));
      if ok {
        sent := sent + {g};
      }
      remaining := remaining - {g};
    }
  }
}
