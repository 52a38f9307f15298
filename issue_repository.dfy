/** The issue table operations of src/repositories/issue.repository.ts. */
module IssueRepository {
  import opened Wrappers
  import opened Enums
  import opened Dates
  import opened Store
  import opened GroupBy

  /** CreateIssueDto. */
  datatype NewIssue = NewIssue(
    projectId: Id,
    title: string,
    content: string,
    assigneeId: Option<string>,
    impact: IssueImpact)

  /** UpdateIssueDto: a field left `None` is not written. */
  datatype IssuePatch = IssuePatch(
    title: Option<string>,
    content: Option<string>,
    assigneeId: Option<string>,
    impact: Option<IssueImpact>,
    status: Option<IssueStatus>,
    resolution: Option<string>)

  /** A new row: the supplied fields, status OPEN, created now, no warning or closing stamps. */
  function NewRow(data: NewIssue, now: Time): Issue {
    Issue(data.projectId, data.title, data.content, data.assigneeId, data.impact,
          OPEN, now, None, None, None, None)
  }

  /** `create`: inserts a row under a fresh id; the project must exist. */
  method Create(db: Database, data: NewIssue, now: Time) returns (r: Result<Id, Error>)
    requires db.Valid()
    modifies db`issues, db`nextId
    ensures db.Valid()
    ensures data.projectId !in db.projects ==>
      r == Err(ForeignKeyViolation) && db.issues == old(db.issues)
    ensures data.projectId in db.projects ==>
      && r.Ok? && r.value !in old(db.issues)
      && db.issues == old(db.issues)[r.value := NewRow(data, now)]
  {
    if data.projectId !in db.projects {
      return Err(ForeignKeyViolation);
    }
    var id := db.nextId;
    db.nextId := db.nextId + 1;
    db.issues := db.issues[id := NewRow(data, now)];
    r := Ok(id);
  }

  /** IssueFilters; `openOnly` absent is false. */
  datatype IssueFilters = IssueFilters(
    projectId: Option<Id>,
    guildId: Option<string>,
    status: Option<IssueStatus>,
    impact: Option<IssueImpact>,
    assigneeId: Option<string>,
    openOnly: bool)

  datatype StatusCondition = AnyStatus | StatusIs(s: IssueStatus) | StatusIn(ss: set<IssueStatus>)

  predicate Satisfies(c: StatusCondition, s: IssueStatus) {
    match c
    case AnyStatus => true
    case StatusIs(t) => s == t
    case StatusIn(ts) => s in ts
  }

  /** The `where.status` that `findMany` builds: `openOnly` is written last. */
  function StatusWhere(f: IssueFilters): StatusCondition {
    var c := if f.status.Some? then StatusIs(f.status.value) else AnyStatus;
    if f.openOnly then StatusIn({OPEN, IN_ACTION}) else c
  }

  predicate MatchesWhere(projects: map<Id, Project>, i: Issue, f: IssueFilters) {
    && (f.projectId.Some? ==> i.projectId == f.projectId.value)
    && (Truthy(f.guildId) ==> InGuild(projects, i.projectId, f.guildId.value))
    && Satisfies(StatusWhere(f), i.status)
    && (f.impact.Some? ==> i.impact == f.impact.value)
    && (Truthy(f.assigneeId) ==> i.assigneeId == f.assigneeId)
  }

  /**
   * `findMany(filters)`: the filters are conjunctive, and `openOnly`
   * replaces any `status` filter by OPEN or IN_ACTION.
   */
  function FindMany(projects: map<Id, Project>, issues: map<Id, Issue>, f: IssueFilters): (r: set<Id>)
    ensures r <= issues.Keys
    ensures forall id :: id in issues ==> (id in r <==>
      && (f.projectId.Some? ==> issues[id].projectId == f.projectId.value)
      && (Truthy(f.guildId) ==> InGuild(projects, issues[id].projectId, f.guildId.value))
      && (f.impact.Some? ==> issues[id].impact == f.impact.value)
      && (Truthy(f.assigneeId) ==> issues[id].assigneeId == f.assigneeId)
      && (if f.openOnly then IsActive(issues[id].status)
          else f.status.Some? ==> issues[id].status == f.status.value))
  {
    set id | id in issues && MatchesWhere(projects, issues[id], f)
  }

  /** Prisma `update(id, data)`: the supplied fields overwrite the row. */
  function ApplyPatch(i: Issue, p: IssuePatch): Issue {
    i.(title := if p.title.Some? then p.title.value else i.title,
       content := if p.content.Some? then p.content.value else i.content,
       assigneeId := if p.assigneeId.Some? then p.assigneeId else i.assigneeId,
       impact := if p.impact.Some? then p.impact.value else i.impact,
       status := if p.status.Some? then p.status.value else i.status,
       resolution := if p.resolution.Some? then p.resolution else i.resolution)
  }

  /** `update`. */
  method Update(db: Database, id: Id, p: IssuePatch) returns (r: Result<Issue, Error>)
    requires db.Valid()
    modifies db`issues
    ensures db.Valid()
    ensures id !in old(db.issues) ==> r == Err(RecordMissing) && db.issues == old(db.issues)
    ensures id in old(db.issues) ==>
      && r == Ok(ApplyPatch(old(db.issues)[id], p))
      && db.issues == old(db.issues)[id := r.value]
  {
    if id !in db.issues {
      return Err(RecordMissing);
    }
    var row := ApplyPatch(db.issues[id], p);
    db.issues := db.issues[id := row];
    r := Ok(row);
  }

  /**
   * The row after `updateStatus(id, s, resolution)` at time now: RESOLVED
   * stamps resolvedAt, CLOSED stamps closedAt and keeps a non-empty
   * resolution; nothing else changes.
   */
  function StatusUpdated(i: Issue, s: IssueStatus, resolution: Option<string>, now: Time): (r: Issue)
    ensures r.status == s
    ensures r.resolvedAt == (if s == RESOLVED then Some(now) else i.resolvedAt)
    ensures r.closedAt == (if s == CLOSED then Some(now) else i.closedAt)
    ensures r.resolution == (if s == CLOSED && Truthy(resolution) then resolution else i.resolution)
    ensures r.(status := i.status, resolvedAt := i.resolvedAt, closedAt := i.closedAt, resolution := i.resolution) == i
    ensures s != RESOLVED && s != CLOSED ==> r == i.(status := s)
  {
    var stamped := if s == RESOLVED then i.(resolvedAt := Some(now))
                   else if s == CLOSED then i.(closedAt := Some(now))
                   else i;
    var noted := if s == CLOSED && Truthy(resolution) then stamped.(resolution := resolution) else stamped;
    noted.(status := s)
  }

  /** `updateStatus`: builds the update step by step and writes it. */
  method UpdateStatus(db: Database, id: Id, s: IssueStatus, resolution: Option<string>, now: Time)
    returns (r: Result<Issue, Error>)
    requires db.Valid()
    modifies db`issues
    ensures db.Valid()
    ensures id !in old(db.issues) ==> r == Err(RecordMissing) && db.issues == old(db.issues)
    ensures id in old(db.issues) ==>
      && r == Ok(StatusUpdated(old(db.issues)[id], s, resolution, now))
      && db.issues == old(db.issues)[id := r.value]
  {
    if id !in db.issues {
      return Err(RecordMissing);
    }
    var row := db.issues[id].(status := s);
    if s == RESOLVED {
      row := row.(resolvedAt := Some(now));
    }
    if s == CLOSED {
      row := row.(closedAt := Some(now));
      if Truthy(resolution) {
        row := row.(resolution := resolution);
      }
    }
    db.issues := db.issues[id := row];
    r := Ok(row);
  }

  /** `findUnattended(days)`: OPEN issues created more than `days` days before now. */
  function FindUnattended(issues: map<Id, Issue>, days: int, now: Time): (r: set<Id>)
    ensures forall id :: id in r <==>
      id in issues && issues[id].status == OPEN && issues[id].createdAt + days * MsPerDay < now
  {
    var threshold := AddDays(now, -days);
    set id | id in issues && issues[id].status == OPEN && issues[id].createdAt < threshold
  }

  /**
   * `findForWarning(hours, days)`: OPEN issues older than `days` days that
   * were never warned or were last warned more than `hours` hours ago.
   */
  function FindForWarning(issues: map<Id, Issue>, hours: int, days: int, now: Time): (r: set<Id>)
    ensures forall id :: id in r <==>
      && id in issues
      && issues[id].status == OPEN
      && issues[id].createdAt + days * MsPerDay < now
      && (issues[id].lastWarningAt.None? || issues[id].lastWarningAt.value + hours * MsPerHour < now)
  {
    var warningThreshold := AddHours(now, -hours);
    var unattendedThreshold := AddDays(now, -days);
    set id | id in issues && issues[id].status == OPEN && issues[id].createdAt < unattendedThreshold
                          && (issues[id].lastWarningAt.None? || issues[id].lastWarningAt.value < warningThreshold)
  }

  /** An issue warned at `warnedAt` is not selected again until more than `hours` hours later. */
  lemma WarningCooldown(issues: map<Id, Issue>, id: Id, hours: int, days: int, warnedAt: Time, now: Time)
    requires id in issues && issues[id].lastWarningAt == Some(warnedAt)
    requires now <= warnedAt + hours * MsPerHour
    ensures id !in FindForWarning(issues, hours, days, now)
  {
  }

  /** `updateWarningTime(id)`: lastWarningAt becomes now; nothing else changes. */
  method UpdateWarningTime(db: Database, id: Id, now: Time) returns (r: Outcome<Error>)
    requires db.Valid()
    modifies db`issues
    ensures db.Valid()
    ensures id !in old(db.issues) ==> r == Fail(RecordMissing) && db.issues == old(db.issues)
    ensures id in old(db.issues) ==>
      r == Pass && db.issues == old(db.issues)[id := old(db.issues)[id].(lastWarningAt := Some(now))]
  {
    if id !in db.issues {
      return Fail(RecordMissing);
    }
    db.issues := db.issues[id := db.issues[id].(lastWarningAt := Some(now))];
    r := Pass;
  }

  /** `findCritical(guildId)`: the active CRITICAL issues, of the guild when one is given. */
  function FindCritical(projects: map<Id, Project>, issues: map<Id, Issue>, guildId: Option<string>): (r: set<Id>)
    ensures forall id :: id in r <==>
      && id in issues
      && issues[id].impact == CRITICAL
      && IsActive(issues[id].status)
      && (Truthy(guildId) ==> InGuild(projects, issues[id].projectId, guildId.value))
  {
    set id | id in issues && issues[id].impact == CRITICAL && issues[id].status in {OPEN, IN_ACTION}
                          && (Truthy(guildId) ==> InGuild(projects, issues[id].projectId, guildId.value))
  }

  /** The issues of a project with status s, and with impact k. */
  function CountStatus(issues: map<Id, Issue>, projectId: Id, s: IssueStatus): nat {
    |set id | id in issues && issues[id].projectId == projectId && issues[id].status == s|
  }

  function CountImpact(issues: map<Id, Issue>, projectId: Id, k: IssueImpact): nat {
    |set id | id in issues && issues[id].projectId == projectId && issues[id].impact == k|
  }

  /** The two groupBy results, before empty groups are dropped. */
  function StatusCounts(issues: map<Id, Issue>, projectId: Id): seq<Group<IssueStatus>> {
    [ Group(OPEN, CountStatus(issues, projectId, OPEN)),
      Group(IN_ACTION, CountStatus(issues, projectId, IN_ACTION)),
      Group(RESOLVED, CountStatus(issues, projectId, RESOLVED)),
      Group(CLOSED, CountStatus(issues, projectId, CLOSED)) ]
  }

  function ImpactCounts(issues: map<Id, Issue>, projectId: Id): seq<Group<IssueImpact>> {
    [ Group(LOW, CountImpact(issues, projectId, LOW)),
      Group(MEDIUM, CountImpact(issues, projectId, MEDIUM)),
      Group(HIGH, CountImpact(issues, projectId, HIGH)),
      Group(CRITICAL, CountImpact(issues, projectId, CRITICAL)) ]
  }

  /** The issues of a project whose status is in ss. */
  function StatusPart(issues: map<Id, Issue>, projectId: Id, ss: set<IssueStatus>): set<Id> {
    set id | id in issues && issues[id].projectId == projectId && issues[id].status in ss
  }

  /** Splitting a status set splits the part it selects. */
  lemma SplitPart(issues: map<Id, Issue>, projectId: Id, ss: set<IssueStatus>, s: IssueStatus)
    requires s in ss
    ensures |StatusPart(issues, projectId, ss)|
         == |StatusPart(issues, projectId, ss - {s})| + CountStatus(issues, projectId, s)
  {
    var one := set id | id in issues && issues[id].projectId == projectId && issues[id].status == s;
    var rest := StatusPart(issues, projectId, ss - {s});
    var whole := StatusPart(issues, projectId, ss);
    forall id | id in whole
      ensures id in rest + one
    {
      if issues[id].status != s {
        assert issues[id].status in ss - {s};
      }
    }
    assert whole == rest + one;
    assert rest !! one;
    assert one == set id | id in issues && issues[id].projectId == projectId && issues[id].status == s;
  }

  /** A project's issues split by status into four disjoint parts. */
  lemma StatusPartition(issues: map<Id, Issue>, projectId: Id)
    ensures |IssuesOf(issues, projectId)|
         == CountStatus(issues, projectId, OPEN) + CountStatus(issues, projectId, IN_ACTION)
            + CountStatus(issues, projectId, RESOLVED) + CountStatus(issues, projectId, CLOSED)
  {
    var all := IssuesOf(issues, projectId);
    forall id | id in all
      ensures id in StatusPart(issues, projectId, {OPEN, IN_ACTION, RESOLVED, CLOSED})
    {
      assert issues[id].status in {OPEN, IN_ACTION, RESOLVED, CLOSED} by {
        match issues[id].status
        case OPEN =>
        case IN_ACTION =>
        case RESOLVED =>
        case CLOSED =>
      }
    }
    assert all == StatusPart(issues, projectId, {OPEN, IN_ACTION, RESOLVED, CLOSED});
    SplitPart(issues, projectId, {OPEN, IN_ACTION, RESOLVED, CLOSED}, CLOSED);
    assert {OPEN, IN_ACTION, RESOLVED, CLOSED} - {CLOSED} == {OPEN, IN_ACTION, RESOLVED};
    SplitPart(issues, projectId, {OPEN, IN_ACTION, RESOLVED}, RESOLVED);
    assert {OPEN, IN_ACTION, RESOLVED} - {RESOLVED} == {OPEN, IN_ACTION};
    SplitPart(issues, projectId, {OPEN, IN_ACTION}, IN_ACTION);
    assert {OPEN, IN_ACTION} - {IN_ACTION} == {OPEN};
    SplitPart(issues, projectId, {OPEN}, OPEN);
    assert {OPEN} - {OPEN} == {};
    assert StatusPart(issues, projectId, {}) == {};
  }

  /** The status groups: distinct keys, their total, and each status's count. */
  lemma StatusCountsFacts(issues: map<Id, Issue>, projectId: Id)
    ensures DistinctKeys(StatusCounts(issues, projectId))
    ensures SumCounts(StatusCounts(issues, projectId)) == |IssuesOf(issues, projectId)|
    ensures forall s :: CountFor(StatusCounts(issues, projectId), s) == CountStatus(issues, projectId, s)
  {
    var all := StatusCounts(issues, projectId);
    assert all[..|all| - 1] == all[..3] && all[..3][..2] == all[..2] && all[..2][..1] == all[..1];
    assert all[..1][..0] == [];
    assert SumCounts(all[..1]) == all[0].count;
    assert SumCounts(all[..2]) == all[0].count + all[1].count;
    assert SumCounts(all[..3]) == all[0].count + all[1].count + all[2].count;
    forall s: IssueStatus
      ensures CountFor(all, s) == CountStatus(issues, projectId, s)
    {
      var i := match s case OPEN => 0 case IN_ACTION => 1 case RESOLVED => 2 case CLOSED => 3;
      assert all[i].key == s;
      CountForKey(all, i);
    }
    StatusPartition(issues, projectId);
  }

  datatype IssueStats = IssueStats(
    total: nat, open: nat, inAction: nat, resolved: nat, closed: nat,
    byImpact: map<IssueImpact, nat>)

  /**
   * `getStatsByProject`: per-status counts and their total, and a record
   * holding each impact that occurs with its count.
   */
  method GetStatsByProject(db: Database, projectId: Id) returns (stats: IssueStats)
    ensures stats.total == |IssuesOf(db.issues, projectId)|
    ensures stats.open == CountStatus(db.issues, projectId, OPEN)
    ensures stats.inAction == CountStatus(db.issues, projectId, IN_ACTION)
    ensures stats.resolved == CountStatus(db.issues, projectId, RESOLVED)
    ensures stats.closed == CountStatus(db.issues, projectId, CLOSED)
    ensures stats.total == stats.open + stats.inAction + stats.resolved + stats.closed
    ensures forall k :: k in stats.byImpact <==> CountImpact(db.issues, projectId, k) > 0
    ensures forall k :: k in stats.byImpact ==> stats.byImpact[k] == CountImpact(db.issues, projectId, k)
  {
    var byStatus := NonZero(StatusCounts(db.issues, projectId));
    var byImpact := NonZero(ImpactCounts(db.issues, projectId));
    stats := IssueStats(0, 0, 0, 0, 0, map[]);
    for i := 0 to |byStatus|
      invariant stats.byImpact == map[]
      invariant stats.total == SumCounts(byStatus[..i])
      invariant stats.open == CountFor(byStatus[..i], OPEN)
      invariant stats.inAction == CountFor(byStatus[..i], IN_ACTION)
      invariant stats.resolved == CountFor(byStatus[..i], RESOLVED)
      invariant stats.closed == CountFor(byStatus[..i], CLOSED)
    {
      var g := byStatus[i];
      assert byStatus[..i + 1][..i] == byStatus[..i];
      stats := stats.(total := stats.total + g.count);
      match g.key
      case OPEN => stats := stats.(open := g.count);
      case IN_ACTION => stats := stats.(inAction := g.count);
      case RESOLVED => stats := stats.(resolved := g.count);
      case CLOSED => stats := stats.(closed := g.count);
    }
    assert byStatus[..|byStatus|] == byStatus;
    for i := 0 to |byImpact|
      invariant stats.byImpact == ToMap(byImpact[..i])
      invariant stats.total == SumCounts(byStatus)
      invariant stats.open == CountFor(byStatus, OPEN)
      invariant stats.inAction == CountFor(byStatus, IN_ACTION)
      invariant stats.resolved == CountFor(byStatus, RESOLVED)
      invariant stats.closed == CountFor(byStatus, CLOSED)
    {
      assert byImpact[..i + 1][..i] == byImpact[..i];
      stats := stats.(byImpact := stats.byImpact[byImpact[i].key := byImpact[i].count]);
    }
    assert byImpact[..|byImpact|] == byImpact;
    var all := StatusCounts(db.issues, projectId);
    StatusCountsFacts(db.issues, projectId);
    NonZeroSum(all);
    NonZeroCount(all, OPEN);
    NonZeroCount(all, IN_ACTION);
    NonZeroCount(all, RESOLVED);
    NonZeroCount(all, CLOSED);
    StatusPartition(db.issues, projectId);
    ImpactRecord(db.issues, projectId);
  }

  /** The impact record holds exactly the impacts that occur, with their counts. */
  lemma ImpactRecord(issues: map<Id, Issue>, projectId: Id)
    ensures forall k :: k in ToMap(NonZero(ImpactCounts(issues, projectId)))
                        <==> CountImpact(issues, projectId, k) > 0
    ensures forall k :: k in ToMap(NonZero(ImpactCounts(issues, projectId)))
                        ==> ToMap(NonZero(ImpactCounts(issues, projectId)))[k] == CountImpact(issues, projectId, k)
  {
    var all := ImpactCounts(issues, projectId);
    assert DistinctKeys(all);
    forall k: IssueImpact
      ensures CountFor(all, k) == CountImpact(issues, projectId, k)
      ensures k in ToMap(NonZero(all)) <==> CountFor(all, k) > 0
      ensures k in ToMap(NonZero(all)) ==> ToMap(NonZero(all))[k] == CountFor(all, k)
    {
      var i := match k case LOW => 0 case MEDIUM => 1 case HIGH => 2 case CRITICAL => 3;
      assert all[i].key == k;
      CountForKey(all, i);
      NonZeroRecord(all, k);
    }
  }
}
