/** The milestone table operations of src/repositories/milestone.repository.ts. */
module MilestoneRepository {
  import opened Wrappers
  import opened Enums
  import opened Dates
  import opened Store
  import opened GroupBy

  /** CreateMilestoneDto. */
  datatype NewMilestone = NewMilestone(
    projectId: Id,
    name: string,
    description: Option<string>,
    targetDate: Time,
    assigneeId: Option<string>)

  /** UpdateMilestoneDto: a field left `None` is not written. */
  datatype MilestonePatch = MilestonePatch(
    name: Option<string>,
    description: Option<string>,
    targetDate: Option<Time>,
    assigneeId: Option<string>,
    status: Option<MilestoneStatus>)

  /** The three notification flags of a milestone. */
  datatype NotifiedField = NotifiedD7 | NotifiedD1 | NotifiedDelayed

  function Flag(m: Milestone, f: NotifiedField): bool {
    match f
    case NotifiedD7 => m.notifiedD7
    case NotifiedD1 => m.notifiedD1
    case NotifiedDelayed => m.notifiedDelayed
  }

  /** `data: { [field]: true }`. */
  function SetFlag(m: Milestone, f: NotifiedField): (r: Milestone)
    ensures Flag(r, f)
    ensures forall g :: g != f ==> Flag(r, g) == Flag(m, g)
    ensures r.(notifiedD7 := m.notifiedD7, notifiedD1 := m.notifiedD1, notifiedDelayed := m.notifiedDelayed) == m
  {
    match f
    case NotifiedD7 => m.(notifiedD7 := true)
    case NotifiedD1 => m.(notifiedD1 := true)
    case NotifiedDelayed => m.(notifiedDelayed := true)
  }

  /** A new row: the supplied fields; the column defaults SCHEDULED, no notice sent, not completed. */
  function NewRow(data: NewMilestone): Milestone {
    Milestone(data.projectId, data.name, data.description, data.targetDate, data.assigneeId,
              SCHEDULED, false, false, false, None)
  }

  /** `create`: inserts a row under a fresh id; the project must exist. */
  method Create(db: Database, data: NewMilestone) returns (r: Result<Id, Error>)
    requires db.Valid()
    modifies db`milestones, db`nextId
    ensures db.Valid()
    ensures data.projectId !in db.projects ==>
      r == Err(ForeignKeyViolation) && db.milestones == old(db.milestones)
    ensures data.projectId in db.projects ==>
      && r.Ok? && r.value !in old(db.milestones)
      && db.milestones == old(db.milestones)[r.value := NewRow(data)]
  {
    if data.projectId !in db.projects {
      return Err(ForeignKeyViolation);
    }
    var id := db.nextId;
    db.nextId := db.nextId + 1;
    db.milestones := db.milestones[id := NewRow(data)];
    r := Ok(id);
  }

  /** MilestoneFilters. */
  datatype MilestoneFilters = MilestoneFilters(
    projectId: Option<Id>,
    guildId: Option<string>,
    status: Option<MilestoneStatus>,
    assigneeId: Option<string>,
    delayed: Option<bool>)

  datatype StatusCondition = AnyStatus | StatusIs(s: MilestoneStatus) | StatusIsNot(s: MilestoneStatus)

  predicate Satisfies(c: StatusCondition, s: MilestoneStatus) {
    match c
    case AnyStatus => true
    case StatusIs(t) => s == t
    case StatusIsNot(t) => s != t
  }

  /** The `where.status` that `findMany` builds: a `delayed` filter is written last. */
  function StatusWhere(f: MilestoneFilters): StatusCondition {
    var c := if f.status.Some? then StatusIs(f.status.value) else AnyStatus;
    match f.delayed
    case None => c
    case Some(d) => if d then StatusIs(DELAYED) else StatusIsNot(DELAYED)
  }

  predicate MatchesWhere(projects: map<Id, Project>, m: Milestone, f: MilestoneFilters) {
    && (f.projectId.Some? ==> m.projectId == f.projectId.value)
    && (Truthy(f.guildId) ==> InGuild(projects, m.projectId, f.guildId.value))
    && Satisfies(StatusWhere(f), m.status)
    && (Truthy(f.assigneeId) ==> m.assigneeId == f.assigneeId)
  }

  /**
   * `findMany(filters)`: the filters are conjunctive, and a `delayed` filter
   * overrides any `status` filter.
   */
  function FindMany(projects: map<Id, Project>, ms: map<Id, Milestone>, f: MilestoneFilters): (r: set<Id>)
    ensures r <= ms.Keys
    ensures forall id :: id in ms ==> (id in r <==>
      && (f.projectId.Some? ==> ms[id].projectId == f.projectId.value)
      && (Truthy(f.guildId) ==> InGuild(projects, ms[id].projectId, f.guildId.value))
      && (Truthy(f.assigneeId) ==> ms[id].assigneeId == f.assigneeId)
      && (if f.delayed.Some? then (ms[id].status == DELAYED) == f.delayed.value
          else f.status.Some? ==> ms[id].status == f.status.value))
  {
    set id | id in ms && MatchesWhere(projects, ms[id], f)
  }

  /** Prisma `update(id, data)`: the supplied fields overwrite the row. */
  function ApplyPatch(m: Milestone, p: MilestonePatch): Milestone {
    m.(name := if p.name.Some? then p.name.value else m.name,
       description := if p.description.Some? then p.description else m.description,
       targetDate := if p.targetDate.Some? then p.targetDate.value else m.targetDate,
       assigneeId := if p.assigneeId.Some? then p.assigneeId else m.assigneeId,
       status := if p.status.Some? then p.status.value else m.status)
  }

  /** `update`. */
  method Update(db: Database, id: Id, p: MilestonePatch) returns (r: Result<Milestone, Error>)
    requires db.Valid()
    modifies db`milestones
    ensures db.Valid()
    ensures id !in old(db.milestones) ==> r == Err(RecordMissing) && db.milestones == old(db.milestones)
    ensures id in old(db.milestones) ==>
      && r == Ok(ApplyPatch(old(db.milestones)[id], p))
      && db.milestones == old(db.milestones)[id := r.value]
  {
    if id !in db.milestones {
      return Err(RecordMissing);
    }
    var m := ApplyPatch(db.milestones[id], p);
    db.milestones := db.milestones[id := m];
    r := Ok(m);
  }

  /** The row after `complete`: COMPLETED and stamped, whatever its status was. */
  function Completed(m: Milestone, now: Time): (r: Milestone)
    ensures r.status == MilestoneStatus.COMPLETED && r.completedAt == Some(now)
    ensures r.(status := m.status, completedAt := m.completedAt) == m
  {
    m.(status := MilestoneStatus.COMPLETED, completedAt := Some(now))
  }

  /** `complete`. */
  method Complete(db: Database, id: Id, now: Time) returns (r: Result<Milestone, Error>)
    requires db.Valid()
    modifies db`milestones
    ensures db.Valid()
    ensures id !in old(db.milestones) ==> r == Err(RecordMissing) && db.milestones == old(db.milestones)
    ensures id in old(db.milestones) ==>
      && r == Ok(Completed(old(db.milestones)[id], now))
      && db.milestones == old(db.milestones)[id := r.value]
  {
    if id !in db.milestones {
      return Err(RecordMissing);
    }
    var m := Completed(db.milestones[id], now);
    db.milestones := db.milestones[id := m];
    r := Ok(m);
  }

  /**
   * `findForNotification(targetDate, field)`: the SCHEDULED milestones whose
   * target falls on targetDate's day and whose flag is still false.
   */
  function FindForNotification(ms: map<Id, Milestone>, targetDate: Time, field: NotifiedField): (r: set<Id>)
    ensures forall id :: id in r <==>
      && id in ms
      && ms[id].status == SCHEDULED
      && !Flag(ms[id], field)
      && DayNumber(ms[id].targetDate) == DayNumber(targetDate)
  {
    var startOfDay := StartOfDay(targetDate);
    var endOfDay := EndOfDay(targetDate);
    assert forall id | id in ms ::
      (startOfDay <= ms[id].targetDate <= endOfDay <==> DayNumber(ms[id].targetDate) == DayNumber(targetDate))
    by {
      forall id | id in ms {
        WithinDayIffSameDay(ms[id].targetDate, targetDate);
      }
    }
    set id | id in ms && startOfDay <= ms[id].targetDate <= endOfDay
                      && ms[id].status == SCHEDULED && !Flag(ms[id], field)
  }

  /** `markNotified(id, field)`. */
  method MarkNotified(db: Database, id: Id, field: NotifiedField) returns (r: Outcome<Error>)
    requires db.Valid()
    modifies db`milestones
    ensures db.Valid()
    ensures id !in old(db.milestones) ==> r == Fail(RecordMissing) && db.milestones == old(db.milestones)
    ensures id in old(db.milestones) ==>
      r == Pass && db.milestones == old(db.milestones)[id := SetFlag(old(db.milestones)[id], field)]
  {
    if id !in db.milestones {
      return Fail(RecordMissing);
    }
    db.milestones := db.milestones[id := SetFlag(db.milestones[id], field)];
    r := Pass;
  }

  /** `findDelayed`: not COMPLETED, and the target day is before today. */
  function FindDelayed(ms: map<Id, Milestone>, now: Time): (r: set<Id>)
    ensures forall id :: id in r <==>
      id in ms && ms[id].status != MilestoneStatus.COMPLETED && IsDelayed(Some(ms[id].targetDate), now)
  {
    var today := StartOfDay(now);
    assert forall id | id in ms :: (ms[id].targetDate < today <==> IsDelayed(Some(ms[id].targetDate), now)) by {
      forall id | id in ms {
        BeforeStartOfDay(ms[id].targetDate, now);
      }
    }
    set id | id in ms && ms[id].targetDate < today && ms[id].status != MilestoneStatus.COMPLETED
  }

  /** The rows `updateDelayedStatus` selects: SCHEDULED with target before midnight today. */
  function StaleIds(ms: map<Id, Milestone>, now: Time): (r: set<Id>)
    ensures forall id :: id in r <==>
      id in ms && ms[id].status == SCHEDULED && IsDelayed(Some(ms[id].targetDate), now)
  {
    var today := StartOfDay(now);
    assert forall id | id in ms :: (ms[id].targetDate < today <==> IsDelayed(Some(ms[id].targetDate), now)) by {
      forall id | id in ms {
        BeforeStartOfDay(ms[id].targetDate, now);
      }
    }
    set id | id in ms && ms[id].targetDate < today && ms[id].status == SCHEDULED
  }

  /** The table after `updateMany`: every stale row DELAYED, every other row untouched. */
  function AdvanceStale(ms: map<Id, Milestone>, now: Time): (r: map<Id, Milestone>)
    ensures r.Keys == ms.Keys
    ensures forall id :: id in StaleIds(ms, now) ==> r[id] == ms[id].(status := DELAYED)
    ensures forall id :: id in ms && id !in StaleIds(ms, now) ==> r[id] == ms[id]
  {
    var stale := StaleIds(ms, now);
    map id | id in ms :: if id in stale then ms[id].(status := DELAYED) else ms[id]
  }

  /** `updateDelayedStatus`: advances the stale rows and returns how many it changed. */
  method UpdateDelayedStatus(db: Database, now: Time) returns (count: nat)
    requires db.Valid()
    modifies db`milestones
    ensures db.Valid()
    ensures db.milestones == AdvanceStale(old(db.milestones), now)
    ensures count == |StaleIds(old(db.milestones), now)|
  {
    count := |StaleIds(db.milestones, now)|;
    db.milestones := AdvanceStale(db.milestones, now);
  }

  /** A second `updateDelayedStatus` on the same day finds nothing and changes nothing. */
  lemma AdvanceStaleIdempotent(ms: map<Id, Milestone>, now: Time)
    ensures StaleIds(AdvanceStale(ms, now), now) == {}
    ensures AdvanceStale(AdvanceStale(ms, now), now) == AdvanceStale(ms, now)
  {
    var once := AdvanceStale(ms, now);
    assert forall id | id in once :: id !in StaleIds(once, now);
  }

  /**
   * Advancing on one day and again on a later day is the same as advancing on
   * the later day alone.
   */
  lemma AdvanceStaleLater(ms: map<Id, Milestone>, day1: Time, day2: Time)
    requires DayNumber(day1) <= DayNumber(day2)
    ensures AdvanceStale(AdvanceStale(ms, day1), day2) == AdvanceStale(ms, day2)
  {
    var once := AdvanceStale(ms, day1);
    var twice := AdvanceStale(once, day2);
    var direct := AdvanceStale(ms, day2);
    forall id | id in ms
      ensures twice[id] == direct[id]
    {
      if id in StaleIds(ms, day1) {
        assert id in StaleIds(ms, day2);
      }
    }
  }

  /** groupBy status over a project's milestones; the statuses that occur, with their counts. */
  function WithStatus(ms: map<Id, Milestone>, projectId: Id, s: MilestoneStatus): set<Id> {
    set id | id in ms && ms[id].projectId == projectId && ms[id].status == s
  }

  function CountStatus(ms: map<Id, Milestone>, projectId: Id, s: MilestoneStatus): nat {
    |WithStatus(ms, projectId, s)|
  }

  function StatusCounts(ms: map<Id, Milestone>, projectId: Id): seq<Group<MilestoneStatus>> {
    [ Group(SCHEDULED, CountStatus(ms, projectId, SCHEDULED)),
      Group(MilestoneStatus.COMPLETED, CountStatus(ms, projectId, MilestoneStatus.COMPLETED)),
      Group(DELAYED, CountStatus(ms, projectId, DELAYED)) ]
  }

  function StatusGroups(ms: map<Id, Milestone>, projectId: Id): seq<Group<MilestoneStatus>> {
    NonZero(StatusCounts(ms, projectId))
  }

  /** A project's milestones split by status into three disjoint parts. */
  lemma StatusPartition(ms: map<Id, Milestone>, projectId: Id)
    ensures |MilestonesOf(ms, projectId)|
         == CountStatus(ms, projectId, SCHEDULED) + CountStatus(ms, projectId, MilestoneStatus.COMPLETED)
            + CountStatus(ms, projectId, DELAYED)
  {
    var s := WithStatus(ms, projectId, SCHEDULED);
    var c := WithStatus(ms, projectId, MilestoneStatus.COMPLETED);
    var d := WithStatus(ms, projectId, DELAYED);
    forall id | id in MilestonesOf(ms, projectId)
      ensures id in s + c + d
    {
      match ms[id].status
      case SCHEDULED => assert id in s;
      case COMPLETED => assert id in c;
      case DELAYED => assert id in d;
    }
    assert MilestonesOf(ms, projectId) == s + c + d;
    assert s !! c && |s + c| == |s| + |c|;
    assert (s + c) !! d && |s + c + d| == |s + c| + |d|;
  }

  /** The three per-status groups: distinct keys, their total, and each status's count. */
  lemma StatusCountsFacts(ms: map<Id, Milestone>, projectId: Id)
    ensures DistinctKeys(StatusCounts(ms, projectId))
    ensures SumCounts(StatusCounts(ms, projectId)) == |MilestonesOf(ms, projectId)|
    ensures forall s :: CountFor(StatusCounts(ms, projectId), s) == CountStatus(ms, projectId, s)
  {
    var all := StatusCounts(ms, projectId);
    assert all[..2][..1] == all[..1] && all[..|all| - 1] == all[..2] && all[..1][..0] == [];
    assert SumCounts(all[..1]) == all[0].count;
    assert SumCounts(all[..2]) == all[0].count + all[1].count;
    forall s: MilestoneStatus
      ensures CountFor(all, s) == CountStatus(ms, projectId, s)
    {
      assert CountFor(all[..1], s) == if s == SCHEDULED then all[0].count else 0;
      assert CountFor(all[..2], s) == if s == MilestoneStatus.COMPLETED then all[1].count else CountFor(all[..1], s);
    }
    StatusPartition(ms, projectId);
  }

  datatype MilestoneStats = MilestoneStats(total: nat, completed: nat, delayed: nat, scheduled: nat)

  /** `getStatsByProject`: the per-status counts of a project's milestones and their total. */
  method GetStatsByProject(db: Database, projectId: Id) returns (stats: MilestoneStats)
    ensures stats.total == |MilestonesOf(db.milestones, projectId)|
    ensures stats.completed == CountStatus(db.milestones, projectId, MilestoneStatus.COMPLETED)
    ensures stats.delayed == CountStatus(db.milestones, projectId, DELAYED)
    ensures stats.scheduled == CountStatus(db.milestones, projectId, SCHEDULED)
    ensures stats.total == stats.completed + stats.delayed + stats.scheduled
  {
    var groups := StatusGroups(db.milestones, projectId);
    stats := MilestoneStats(0, 0, 0, 0);
    for i := 0 to |groups|
      invariant stats.total == SumCounts(groups[..i])
      invariant stats.completed == CountFor(groups[..i], MilestoneStatus.COMPLETED)
      invariant stats.delayed == CountFor(groups[..i], DELAYED)
      invariant stats.scheduled == CountFor(groups[..i], SCHEDULED)
    {
      var g := groups[i];
      assert groups[..i + 1][..i] == groups[..i];
      stats := stats.(total := stats.total + g.count);
      match g.key
      case COMPLETED => stats := stats.(completed := g.count);
      case DELAYED => stats := stats.(delayed := g.count);
      case SCHEDULED => stats := stats.(scheduled := g.count);
    }
    assert groups[..|groups|] == groups;
    var all := StatusCounts(db.milestones, projectId);
    StatusCountsFacts(db.milestones, projectId);
    NonZeroSum(all);
    NonZeroCount(all, MilestoneStatus.COMPLETED);
    NonZeroCount(all, DELAYED);
    NonZeroCount(all, SCHEDULED);
    StatusPartition(db.milestones, projectId);
  }
}
