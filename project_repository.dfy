/** The project and participant table operations of src/repositories/project.repository.ts. */
module ProjectRepository {
  import opened Wrappers
  import opened Enums
  import opened Dates
  import opened Store
  import opened GroupBy

  /** CreateProjectDto; `participants` is the optional list of user ids. */
  datatype NewProject = NewProject(
    name: string,
    description: Option<string>,
    pmId: string,
    startDate: Time,
    endDate: Time,
    guildId: string,
    channelId: Option<string>,
    participants: Option<seq<string>>,
    manHours: Option<int>,
    personnel: Option<string>)

  /** UpdateProjectDto: a field left `None` is not written. */
  datatype ProjectPatch = ProjectPatch(
    name: Option<string>,
    description: Option<string>,
    pmId: Option<string>,
    startDate: Option<Time>,
    endDate: Option<Time>,
    manHours: Option<int>,
    personnel: Option<string>,
    status: Option<ProjectStatus>,
    channelId: Option<string>)

  /** A new row: the supplied fields, status PLANNING, created and updated now. */
  function NewRow(data: NewProject, now: Time): Project {
    Project(data.guildId, data.name, data.description, data.pmId, data.startDate, data.endDate,
            PLANNING, data.channelId, data.manHours, data.personnel, now, now)
  }

  /** The role given to a listed participant: PM for the project's PM, MEMBER otherwise. */
  function RoleFor(discordId: string, pmId: string): ParticipantRole {
    if discordId == pmId then PM else MEMBER
  }

  /** The participant rows of the nested create. */
  function ParticipantRows(projectId: Id, ids: seq<string>, pmId: string): (rows: map<(Id, string), ParticipantRole>)
    ensures forall key :: key in rows <==> key.0 == projectId && key.1 in ids
    ensures forall key :: key in rows ==> rows[key] == (if key.1 == pmId then PM else MEMBER)
  {
    map key | key in (set d | d in ids :: (projectId, d)) :: RoleFor(key.1, pmId)
  }

  predicate NoDuplicates(ids: seq<string>) {
    forall i, j :: 0 <= i < j < |ids| ==> ids[i] != ids[j]
  }

  /**
   * `create`: inserts the project and, when a list is given, one participant
   * row per listed user.  A repeated user breaks the (project, user) key, and
   * the nested write fails as a whole.
   */
  method Create(db: Database, data: NewProject, now: Time) returns (r: Result<Id, Error>)
    requires db.Valid()
    modifies db`projects, db`participants, db`nextId
    ensures db.Valid()
    ensures data.participants.Some? && !NoDuplicates(data.participants.value) ==>
      r == Err(UniqueViolation) && db.projects == old(db.projects) && db.participants == old(db.participants)
    ensures (data.participants.None? || NoDuplicates(data.participants.value)) ==>
      && r.Ok? && r.value !in old(db.projects)
      && db.projects == old(db.projects)[r.value := NewRow(data, now)]
      && (forall key :: key in db.participants <==>
            key in old(db.participants) || (key.0 == r.value && data.participants.Some? && key.1 in data.participants.value))
      && (forall key :: key in old(db.participants) ==> db.participants[key] == old(db.participants)[key])
      && (forall d :: (r.value, d) in db.participants ==> db.participants[(r.value, d)] == RoleFor(d, data.pmId))
  {
    if data.participants.Some? && !NoDuplicates(data.participants.value) {
      return Err(UniqueViolation);
    }
    var id := db.nextId;
    assert forall key :: key in db.participants ==> key.0 != id;
    db.nextId := db.nextId + 1;
    db.projects := db.projects[id := NewRow(data, now)];
    if data.participants.Some? {
      db.participants := db.participants + ParticipantRows(id, data.participants.value, data.pmId);
    }
    r := Ok(id);
  }

  /** ProjectFilters: the guild is mandatory. */
  datatype ProjectFilters = ProjectFilters(
    guildId: string,
    status: Option<ProjectStatus>,
    pmId: Option<string>,
    participantId: Option<string>,
    search: Option<string>)

  /** `term` occurs in `s` (Prisma `contains`, case-sensitive). */
  predicate Contains(s: string, term: string) {
    exists i | 0 <= i <= |s| :: OccursAt(s, term, i)
  }

  predicate OccursAt(s: string, term: string, i: int) {
    0 <= i && i + |term| <= |s| && s[i..i + |term|] == term
  }

  /** The `where` that `findMany` builds: each optional filter only when it is set. */
  datatype ProjectWhere = ProjectWhere(
    guildId: string,
    status: Option<ProjectStatus>,
    pmId: Option<string>,
    participantId: Option<string>,
    search: Option<string>)

  function BuildWhere(f: ProjectFilters): ProjectWhere {
    ProjectWhere(f.guildId, f.status,
                 if Truthy(f.pmId) then f.pmId else None,
                 if Truthy(f.participantId) then f.participantId else None,
                 if Truthy(f.search) then f.search else None)
  }

  predicate MatchesWhere(participants: map<(Id, string), ParticipantRole>, id: Id, p: Project, w: ProjectWhere) {
    && p.guildId == w.guildId
    && (w.status.Some? ==> p.status == w.status.value)
    && (w.pmId.Some? ==> p.pmId == w.pmId.value)
    && (w.participantId.Some? ==> (id, w.participantId.value) in participants)
    && (w.search.Some? ==> Contains(p.name, w.search.value)
                           || (p.description.Some? && Contains(p.description.value, w.search.value)))
  }

  /**
   * `findMany(filters)`: always the guild's projects, narrowed by each
   * non-empty optional filter; a search term must occur in the name or the
   * description.
   */
  function FindMany(projects: map<Id, Project>, participants: map<(Id, string), ParticipantRole>,
                    f: ProjectFilters): (r: set<Id>)
    ensures r <= ProjectsOf(projects, f.guildId)
    ensures forall id :: id in projects ==> (id in r <==>
      && projects[id].guildId == f.guildId
      && (f.status.Some? ==> projects[id].status == f.status.value)
      && (Truthy(f.pmId) ==> Some(projects[id].pmId) == f.pmId)
      && (Truthy(f.participantId) ==> (id, f.participantId.value) in participants)
      && (Truthy(f.search) ==>
            Contains(projects[id].name, f.search.value)
            || (projects[id].description.Some? && Contains(projects[id].description.value, f.search.value))))
  {
    var w := BuildWhere(f);
    set id | id in projects && MatchesWhere(participants, id, projects[id], w)
  }

  /** A project whose name or description is the search term is matched by it. */
  lemma SearchFindsExactText(p: Project, term: string)
    requires p.name == term || p.description == Some(term)
    ensures Contains(p.name, term) || (p.description.Some? && Contains(p.description.value, term))
  {
    if p.name == term {
      assert OccursAt(p.name, term, 0);
    } else {
      assert OccursAt(p.description.value, term, 0);
    }
  }

  /** The patch `update(id, { status })` that carries a status alone. */
  function StatusPatch(s: ProjectStatus): ProjectPatch {
    ProjectPatch(None, None, None, None, None, None, None, Some(s), None)
  }

  /** Prisma `update(id, data)`: the supplied fields overwrite the row; updatedAt is stamped. */
  function ApplyPatch(p: Project, d: ProjectPatch, now: Time): Project {
    p.(name := if d.name.Some? then d.name.value else p.name,
       description := if d.description.Some? then d.description else p.description,
       pmId := if d.pmId.Some? then d.pmId.value else p.pmId,
       startDate := if d.startDate.Some? then d.startDate.value else p.startDate,
       endDate := if d.endDate.Some? then d.endDate.value else p.endDate,
       manHours := if d.manHours.Some? then d.manHours else p.manHours,
       personnel := if d.personnel.Some? then d.personnel else p.personnel,
       status := if d.status.Some? then d.status.value else p.status,
       channelId := if d.channelId.Some? then d.channelId else p.channelId,
       updatedAt := now)
  }

  /** `update`. */
  method Update(db: Database, id: Id, d: ProjectPatch, now: Time) returns (r: Result<Project, Error>)
    requires db.Valid()
    modifies db`projects
    ensures db.Valid()
    ensures id !in old(db.projects) ==> r == Err(RecordMissing) && db.projects == old(db.projects)
    ensures id in old(db.projects) ==>
      && r == Ok(ApplyPatch(old(db.projects)[id], d, now))
      && db.projects == old(db.projects)[id := r.value]
  {
    if id !in db.projects {
      return Err(RecordMissing);
    }
    var row := ApplyPatch(db.projects[id], d, now);
    db.projects := db.projects[id := row];
    r := Ok(row);
  }

  /** `addParticipant`: a new (project, user) row; the pair must be new and the project must exist. */
  method AddParticipant(db: Database, projectId: Id, discordId: string, role: ParticipantRole)
    returns (r: Outcome<Error>)
    requires db.Valid()
    modifies db`participants
    ensures db.Valid()
    ensures projectId !in db.projects ==> r == Fail(ForeignKeyViolation) && db.participants == old(db.participants)
    ensures projectId in db.projects && (projectId, discordId) in old(db.participants) ==>
      r == Fail(UniqueViolation) && db.participants == old(db.participants)
    ensures projectId in db.projects && (projectId, discordId) !in old(db.participants) ==>
      r == Pass && db.participants == old(db.participants)[(projectId, discordId) := role]
  {
    if projectId !in db.projects {
      return Fail(ForeignKeyViolation);
    }
    if (projectId, discordId) in db.participants {
      return Fail(UniqueViolation);
    }
    db.participants := db.participants[(projectId, discordId) := role];
    r := Pass;
  }

  /** `removeParticipant`: deletes exactly the (project, user) row, which must exist. */
  method RemoveParticipant(db: Database, projectId: Id, discordId: string) returns (r: Outcome<Error>)
    requires db.Valid()
    modifies db`participants
    ensures db.Valid()
    ensures (projectId, discordId) !in old(db.participants) ==>
      r == Fail(RecordMissing) && db.participants == old(db.participants)
    ensures (projectId, discordId) in old(db.participants) ==>
      r == Pass && db.participants == old(db.participants) - {(projectId, discordId)}
  {
    if (projectId, discordId) !in db.participants {
      return Fail(RecordMissing);
    }
    db.participants := db.participants - {(projectId, discordId)};
    r := Pass;
  }

  /** The guild's projects whose status is in ss, and with status s. */
  function StatusPart(projects: map<Id, Project>, g: string, ss: set<ProjectStatus>): set<Id> {
    set id | id in projects && projects[id].guildId == g && projects[id].status in ss
  }

  function WithStatus(projects: map<Id, Project>, g: string, s: ProjectStatus): set<Id> {
    set id | id in projects && projects[id].guildId == g && projects[id].status == s
  }

  function CountStatus(projects: map<Id, Project>, g: string, s: ProjectStatus): nat {
    |WithStatus(projects, g, s)|
  }

  /** Splitting a status set splits the part it selects. */
  lemma SplitPart(projects: map<Id, Project>, g: string, ss: set<ProjectStatus>, s: ProjectStatus)
    requires s in ss
    ensures |StatusPart(projects, g, ss)| == |StatusPart(projects, g, ss - {s})| + CountStatus(projects, g, s)
  {
    var one := WithStatus(projects, g, s);
    var rest := StatusPart(projects, g, ss - {s});
    var whole := StatusPart(projects, g, ss);
    forall id | id in whole
      ensures id in rest + one
    {
      if projects[id].status != s {
        assert projects[id].status in ss - {s};
      }
    }
    assert whole == rest + one;
    assert rest !! one;
  }

  /** A guild's projects split by status into five disjoint parts. */
  lemma StatusPartition(projects: map<Id, Project>, g: string)
    ensures |ProjectsOf(projects, g)|
         == CountStatus(projects, g, PLANNING) + CountStatus(projects, g, IN_PROGRESS)
            + CountStatus(projects, g, ISSUE) + CountStatus(projects, g, ON_HOLD)
            + CountStatus(projects, g, ProjectStatus.COMPLETED)
  {
    var every := {PLANNING, IN_PROGRESS, ISSUE, ON_HOLD, ProjectStatus.COMPLETED};
    var all := ProjectsOf(projects, g);
    forall id | id in all
      ensures id in StatusPart(projects, g, every)
    {
      assert projects[id].status in every by {
        match projects[id].status
        case PLANNING =>
        case IN_PROGRESS =>
        case ISSUE =>
        case ON_HOLD =>
        case COMPLETED =>
      }
    }
    assert all == StatusPart(projects, g, every);
    SplitPart(projects, g, every, ProjectStatus.COMPLETED);
    assert every - {ProjectStatus.COMPLETED} == {PLANNING, IN_PROGRESS, ISSUE, ON_HOLD};
    NotCompletedPartition(projects, g);
  }

  /** The guild's projects other than COMPLETED split into four disjoint parts. */
  lemma NotCompletedPartition(projects: map<Id, Project>, g: string)
    ensures |StatusPart(projects, g, {PLANNING, IN_PROGRESS, ISSUE, ON_HOLD})|
         == CountStatus(projects, g, PLANNING) + CountStatus(projects, g, IN_PROGRESS)
            + CountStatus(projects, g, ISSUE) + CountStatus(projects, g, ON_HOLD)
  {
    SplitPart(projects, g, {PLANNING, IN_PROGRESS, ISSUE, ON_HOLD}, ON_HOLD);
    assert {PLANNING, IN_PROGRESS, ISSUE, ON_HOLD} - {ON_HOLD} == {PLANNING, IN_PROGRESS, ISSUE};
    SplitPart(projects, g, {PLANNING, IN_PROGRESS, ISSUE}, ISSUE);
    assert {PLANNING, IN_PROGRESS, ISSUE} - {ISSUE} == {PLANNING, IN_PROGRESS};
    SplitPart(projects, g, {PLANNING, IN_PROGRESS}, IN_PROGRESS);
    assert {PLANNING, IN_PROGRESS} - {IN_PROGRESS} == {PLANNING};
    SplitPart(projects, g, {PLANNING}, PLANNING);
    assert {PLANNING} - {PLANNING} == {};
    assert StatusPart(projects, g, {}) == {};
  }

  /** The guild's projects that `notIn: [COMPLETED]` selects. */
  function ActiveIds(projects: map<Id, Project>, g: string): set<Id> {
    set id | id in projects && projects[id].guildId == g && projects[id].status !in {ProjectStatus.COMPLETED}
  }

  /** `countActiveByGuild`: the guild's projects that are not COMPLETED. */
  function CountActiveByGuild(projects: map<Id, Project>, g: string): (n: nat)
    ensures n + CountStatus(projects, g, ProjectStatus.COMPLETED) == |ProjectsOf(projects, g)|
  {
    ActiveCount(projects, g);
    |ActiveIds(projects, g)|
  }

  lemma ActiveCount(projects: map<Id, Project>, g: string)
    ensures |ActiveIds(projects, g)| + CountStatus(projects, g, ProjectStatus.COMPLETED) == |ProjectsOf(projects, g)|
  {
    var active := ActiveIds(projects, g);
    forall id | id in active
      ensures id in StatusPart(projects, g, {PLANNING, IN_PROGRESS, ISSUE, ON_HOLD})
    {
      assert projects[id].status in {PLANNING, IN_PROGRESS, ISSUE, ON_HOLD} by {
        match projects[id].status
        case PLANNING =>
        case IN_PROGRESS =>
        case ISSUE =>
        case ON_HOLD =>
      }
    }
    assert active == StatusPart(projects, g, {PLANNING, IN_PROGRESS, ISSUE, ON_HOLD});
    NotCompletedPartition(projects, g);
    StatusPartition(projects, g);
  }

  /** A per-status record's entry, 0 when the status is absent (`stats[s] || 0`). */
  function Get(stats: map<ProjectStatus, nat>, s: ProjectStatus): nat {
    if s in stats then stats[s] else 0
  }

  /** The sum of a per-status record's values (`Object.values(stats).reduce(+)`). */
  function Total(stats: map<ProjectStatus, nat>): nat {
    Get(stats, PLANNING) + Get(stats, IN_PROGRESS) + Get(stats, ISSUE) + Get(stats, ON_HOLD)
    + Get(stats, ProjectStatus.COMPLETED)
  }

  /** The status groupBy, before empty groups are dropped. */
  function StatusCounts(projects: map<Id, Project>, g: string): seq<Group<ProjectStatus>> {
    [ Group(PLANNING, CountStatus(projects, g, PLANNING)),
      Group(IN_PROGRESS, CountStatus(projects, g, IN_PROGRESS)),
      Group(ISSUE, CountStatus(projects, g, ISSUE)),
      Group(ON_HOLD, CountStatus(projects, g, ON_HOLD)),
      Group(ProjectStatus.COMPLETED, CountStatus(projects, g, ProjectStatus.COMPLETED)) ]
  }

  /** The record of the non-empty status groups: each status that occurs, with its count. */
  lemma StatusRecord(projects: map<Id, Project>, g: string)
    ensures forall s :: s in ToMap(NonZero(StatusCounts(projects, g))) <==> CountStatus(projects, g, s) > 0
    ensures forall s :: Get(ToMap(NonZero(StatusCounts(projects, g))), s) == CountStatus(projects, g, s)
  {
    var all := StatusCounts(projects, g);
    assert DistinctKeys(all);
    forall s: ProjectStatus
      ensures CountFor(all, s) == CountStatus(projects, g, s)
      ensures s in ToMap(NonZero(all)) <==> CountFor(all, s) > 0
      ensures s in ToMap(NonZero(all)) ==> ToMap(NonZero(all))[s] == CountFor(all, s)
    {
      var i := match s case PLANNING => 0 case IN_PROGRESS => 1 case ISSUE => 2 case ON_HOLD => 3 case COMPLETED => 4;
      assert all[i].key == s;
      CountForKey(all, i);
      NonZeroRecord(all, s);
    }
  }

  /**
   * `getStatsByGuild`: a record holding each status that occurs among the
   * guild's projects, with its count; the counts sum to the guild's project count.
   */
  method GetStatsByGuild(db: Database, g: string) returns (stats: map<ProjectStatus, nat>)
    ensures forall s :: s in stats <==> CountStatus(db.projects, g, s) > 0
    ensures forall s :: s in stats ==> stats[s] == CountStatus(db.projects, g, s)
    ensures Total(stats) == |ProjectsOf(db.projects, g)|
  {
    var groups := NonZero(StatusCounts(db.projects, g));
    stats := map[];
    for i := 0 to |groups|
      invariant stats == ToMap(groups[..i])
    {
      assert groups[..i + 1][..i] == groups[..i];
      stats := stats[groups[i].key := groups[i].count];
    }
    assert groups[..|groups|] == groups;
    StatusRecord(db.projects, g);
    StatusPartition(db.projects, g);
  }
}
