/**
 * `deadlineScheduler.run` (src/schedulers/deadline.scheduler.ts): advance
 * overdue milestones to DELAYED, then send the D-7, the D-1 and the delayed
 * notices, setting a milestone's flag only when its notice was delivered.
 */
module DeadlineScheduler {
  import opened Wrappers
  import opened Enums
  import opened Dates
  import opened Store
  import opened MilestoneRepository
  import MilestoneService
  import Notifier

  /** The table after flag f was set on the rows in ids; every other row and field is kept. */
  function MarkAll(ms: map<Id, Milestone>, ids: set<Id>, f: NotifiedField): (r: map<Id, Milestone>)
    ensures r.Keys == ms.Keys
    ensures forall id :: id in ms ==> Flag(r[id], f) == (Flag(ms[id], f) || id in ids)
    ensures forall id, g :: id in ms && g != f ==> Flag(r[id], g) == Flag(ms[id], g)
    ensures forall id :: id in ms ==>
      r[id].(notifiedD7 := ms[id].notifiedD7, notifiedD1 := ms[id].notifiedD1,
             notifiedDelayed := ms[id].notifiedDelayed) == ms[id]
  {
    map id | id in ms :: if id in ids then SetFlag(ms[id], f) else ms[id]
  }

  /** Marking one more row extends a marked table by that row alone. */
  lemma MarkOneMore(ms: map<Id, Milestone>, sent: set<Id>, id: Id, f: NotifiedField)
    requires id in ms && id !in sent
    ensures MarkAll(ms, sent + {id}, f) == MarkAll(ms, sent, f)[id := SetFlag(ms[id], f)]
  {
    var a, b := MarkAll(ms, sent + {id}, f), MarkAll(ms, sent, f)[id := SetFlag(ms[id], f)];
    assert a.Keys == b.Keys;
    forall k | k in a
      ensures a[k] == b[k]
    {
    }
  }

  /** Step 4's candidates: the delayed milestones whose delayed notice is still unsent. */
  function DelayedCandidates(ms: map<Id, Milestone>, now: Time): (r: set<Id>)
    ensures forall id :: id in r <==>
      && id in ms
      && ms[id].status != MilestoneStatus.COMPLETED
      && IsDelayed(Some(ms[id].targetDate), now)
      && !ms[id].notifiedDelayed
  {
    set id | id in FindDelayed(ms, now) && !ms[id].notifiedDelayed
  }

  /** The table after a run that delivered the given notices, the steps composed in their order. */
  function AfterRun(ms: map<Id, Milestone>, now: Time, sentD7: set<Id>, sentD1: set<Id>,
                    sentDelayed: set<Id>): (r: map<Id, Milestone>)
    ensures r.Keys == ms.Keys
    ensures forall id :: id in ms ==>
      r[id].status == (if id in StaleIds(ms, now) then DELAYED else ms[id].status)
    ensures forall id :: id in ms ==>
      r[id].(status := ms[id].status, notifiedD7 := ms[id].notifiedD7, notifiedD1 := ms[id].notifiedD1,
             notifiedDelayed := ms[id].notifiedDelayed) == ms[id]
  {
    var s1 := AdvanceStale(ms, now);
    var s2 := MarkAll(s1, sentD7, NotifiedD7);
    var s3 := MarkAll(s2, sentD1, NotifiedD1);
    MarkAll(s3, sentDelayed, NotifiedDelayed)
  }

  /** The milestone's guild has a channel and the client answered true for its notice. */
  ghost predicate Reached(ms0: map<Id, Milestone>, projects: map<Id, Project>, settings: map<string, GuildSettings>,
                          delivers: Id -> bool, id: Id)
    requires id in ms0 && ms0[id].projectId in projects
  {
    Notifier.HasChannel(settings, projects[ms0[id].projectId].guildId) && delivers(id)
  }

  /**
   * The state of a sending loop: the candidates already offered are exactly
   * the ones not remaining, the delivered ones among them are exactly those
   * reached, and the table is the starting one with flag f set on exactly
   * the delivered ones.
   */
  ghost predicate Swept(ms0: map<Id, Milestone>, projects: map<Id, Project>, settings: map<string, GuildSettings>,
                        delivers: Id -> bool, candidates: set<Id>, remaining: set<Id>, sent: set<Id>,
                        f: NotifiedField, ms: map<Id, Milestone>) {
    && candidates <= ms0.Keys
    && (forall id :: id in ms0 ==> ms0[id].projectId in projects)
    && remaining <= candidates && sent <= candidates && sent !! remaining
    && ms == MarkAll(ms0, sent, f)
    && (forall id :: id in candidates && id !in remaining ==>
          (id in sent <==> Reached(ms0, projects, settings, delivers, id)))
  }

  /** Offering one candidate keeps the loop state, whether or not the notice was delivered. */
  lemma SweepStep(ms0: map<Id, Milestone>, projects: map<Id, Project>, settings: map<string, GuildSettings>,
                  delivers: Id -> bool, candidates: set<Id>, remaining: set<Id>, sent: set<Id>, f: NotifiedField,
                  ms: map<Id, Milestone>, id: Id, delivered: bool)
    requires Swept(ms0, projects, settings, delivers, candidates, remaining, sent, f, ms)
    requires id in remaining
    requires delivered == Reached(ms0, projects, settings, delivers, id)
    ensures id in ms && ms[id].projectId == ms0[id].projectId
    ensures delivered ==>
      Swept(ms0, projects, settings, delivers, candidates, remaining - {id}, sent + {id}, f,
            ms[id := SetFlag(ms[id], f)])
    ensures !delivered ==> Swept(ms0, projects, settings, delivers, candidates, remaining - {id}, sent, f, ms)
  {
    if delivered {
      MarkOneMore(ms0, sent, id, f);
    }
  }

  /**
   * One sending loop: every candidate is offered to the notifier once;
   * `delivers(id)` is the client's answer for that candidate's notice.  Flag
   * t is set on exactly the candidates whose guild has a channel and whose
   * notice was delivered; a failed send does not stop the loop.
   */
  method Sweep(db: Database, candidates: set<Id>, t: MilestoneService.NoticeType, delivers: Id -> bool)
    returns (sent: set<Id>)
    requires db.Valid()
    requires candidates <= db.milestones.Keys
    modifies db`milestones
    ensures db.Valid()
    ensures sent <= candidates
    ensures forall id :: id in candidates ==>
      (id in sent <==> Notifier.HasChannel(db.guildSettings, db.projects[old(db.milestones)[id].projectId].guildId)
                       && delivers(id))
    ensures db.milestones == MarkAll(old(db.milestones), sent, MilestoneService.FieldFor(t))
    ensures forall id :: id in sent ==>
      Notifier.HasChannel(db.guildSettings, db.projects[old(db.milestones)[id].projectId].guildId)
  {
    var f := MilestoneService.FieldFor(t);
    ghost var ms0 := db.milestones;
    var remaining := candidates;
    sent := {};
    while remaining != {}
      invariant db.Valid()
      invariant Swept(ms0, db.projects, db.guildSettings, delivers, candidates, remaining, sent, f, db.milestones)
      decreases |remaining|
    {
      var id :| id in remaining;
      var g := db.projects[db.milestones[id].projectId].guildId;
      var ok := Notifier.Deliver(db, g, delivers(id));
      SweepStep(ms0, db.projects, db.guildSettings, delivers, candidates, remaining, sent, f, db.milestones, id, ok);
      if ok {
        var _ := MilestoneService.MarkNotified(db, id, t);
        sent := sent + {id};
      }
      remaining := remaining - {id};
    }
  }

  /**
   * `run`: the four steps in order, each query made on the table as the
   * previous steps left it.  Returns how many milestones became DELAYED and
   * which milestones were sent each notice.
   */
  method Run(db: Database, now: Time, deliversD7: Id -> bool, deliversD1: Id -> bool, deliversDelayed: Id -> bool)
    returns (delayedCount: nat, sentD7: set<Id>, sentD1: set<Id>, sentDelayed: set<Id>)
    requires db.Valid()
    modifies db`milestones
    ensures db.Valid()
    ensures delayedCount == |StaleIds(old(db.milestones), now)|
    ensures db.milestones == AfterRun(old(db.milestones), now, sentD7, sentD1, sentDelayed)
    ensures var s1 := AdvanceStale(old(db.milestones), now);
            var s2 := MarkAll(s1, sentD7, NotifiedD7);
            var s3 := MarkAll(s2, sentD1, NotifiedD1);
            && sentD7 <= MilestoneService.FindForD7Notification(s1, now)
            && sentD1 <= MilestoneService.FindForD1Notification(s2, now)
            && sentDelayed <= DelayedCandidates(s3, now)
            && (forall id :: id in MilestoneService.FindForD7Notification(s1, now) ==>
                  (id in sentD7 <==> Reached(old(db.milestones), db.projects, db.guildSettings, deliversD7, id)))
            && (forall id :: id in MilestoneService.FindForD1Notification(s2, now) ==>
                  (id in sentD1 <==> Reached(old(db.milestones), db.projects, db.guildSettings, deliversD1, id)))
            && (forall id :: id in DelayedCandidates(s3, now) ==>
                  (id in sentDelayed <==> Reached(old(db.milestones), db.projects, db.guildSettings, deliversDelayed, id)))
  {
    ghost var s0 := db.milestones;
    delayedCount := UpdateDelayedStatus(db, now);
    ghost var s1 := db.milestones;
    var d7 := MilestoneService.FindForD7Notification(db.milestones, now);
    sentD7 := Sweep(db, d7, MilestoneService.D7, deliversD7);
    ReachedAgain(s0, s1, db.projects, db.guildSettings, deliversD7, d7, sentD7);
    ghost var s2 := db.milestones;
    var d1 := MilestoneService.FindForD1Notification(db.milestones, now);
    sentD1 := Sweep(db, d1, MilestoneService.D1, deliversD1);
    ReachedAgain(s0, s2, db.projects, db.guildSettings, deliversD1, d1, sentD1);
    ghost var s3 := db.milestones;
    var delayed := DelayedCandidates(db.milestones, now);
    sentDelayed := Sweep(db, delayed, MilestoneService.DELAYED_NOTICE, deliversDelayed);
    ReachedAgain(s0, s3, db.projects, db.guildSettings, deliversDelayed, delayed, sentDelayed);
  }

  /** A step's sweep, read on the table it started from, is read the same on the run's first table. */
  lemma ReachedAgain(ms0: map<Id, Milestone>, ms: map<Id, Milestone>, projects: map<Id, Project>,
                     settings: map<string, GuildSettings>, delivers: Id -> bool, candidates: set<Id>, sent: set<Id>)
    requires ms.Keys == ms0.Keys && candidates <= ms.Keys
    requires forall id :: id in ms0 ==> ms0[id].projectId in projects && ms[id].projectId == ms0[id].projectId
    requires forall id :: id in candidates ==> (id in sent <==> Reached(ms, projects, settings, delivers, id))
    ensures forall id :: id in candidates ==> (id in sent <==> Reached(ms0, projects, settings, delivers, id))
  {
  }

  /**
   * A run sets each flag on exactly the milestones sent that notice, clears
   * none, and changes nothing else besides the DELAYED advance.
   */
  lemma AfterRunFlags(ms: map<Id, Milestone>, now: Time, sentD7: set<Id>, sentD1: set<Id>,
                      sentDelayed: set<Id>, id: Id)
    requires id in ms
    ensures var after := AfterRun(ms, now, sentD7, sentD1, sentDelayed);
      && id in after
      && after[id].notifiedD7 == (ms[id].notifiedD7 || id in sentD7)
      && after[id].notifiedD1 == (ms[id].notifiedD1 || id in sentD1)
      && after[id].notifiedDelayed == (ms[id].notifiedDelayed || id in sentDelayed)
      && after[id].(notifiedD7 := ms[id].notifiedD7, notifiedD1 := ms[id].notifiedD1,
                    notifiedDelayed := ms[id].notifiedDelayed) == AdvanceStale(ms, now)[id]
  {
    var s1 := AdvanceStale(ms, now);
    var s2 := MarkAll(s1, sentD7, NotifiedD7);
    var s3 := MarkAll(s2, sentD1, NotifiedD1);
    var s4 := MarkAll(s3, sentDelayed, NotifiedDelayed);
    assert Flag(s2[id], NotifiedD7) == (ms[id].notifiedD7 || id in sentD7);
    assert Flag(s3[id], NotifiedD7) == Flag(s2[id], NotifiedD7);
    assert Flag(s4[id], NotifiedD7) == Flag(s3[id], NotifiedD7);
    assert Flag(s3[id], NotifiedD1) == (ms[id].notifiedD1 || id in sentD1);
    assert Flag(s4[id], NotifiedD1) == Flag(s3[id], NotifiedD1);
    assert Flag(s4[id], NotifiedDelayed) == (ms[id].notifiedDelayed || id in sentDelayed);
  }

  /**
   * A D-7 candidate whose notice was not delivered is still a D-7
   * candidate at the next run on the same day.
   */
  lemma FailedD7StaysEligible(ms: map<Id, Milestone>, now: Time, later: Time, sentD7: set<Id>,
                              sentD1: set<Id>, sentDelayed: set<Id>, id: Id)
    requires id in MilestoneService.FindForD7Notification(AdvanceStale(ms, now), now)
    requires id !in sentD7
    requires DayNumber(later) == DayNumber(now)
    ensures id in MilestoneService.FindForD7Notification(
      AdvanceStale(AfterRun(ms, now, sentD7, sentD1, sentDelayed), later), later)
  {
    var after := AfterRun(ms, now, sentD7, sentD1, sentDelayed);
    AfterRunFlags(ms, now, sentD7, sentD1, sentDelayed, id);
    assert id !in StaleIds(after, later);
  }

  /**
   * A D-1 candidate whose notice was not delivered is still a D-1
   * candidate at the next run on the same day, whatever that run's D-7 step sends.
   */
  lemma FailedD1StaysEligible(ms: map<Id, Milestone>, now: Time, later: Time, sentD7: set<Id>,
                              sentD1: set<Id>, sentDelayed: set<Id>, nextD7: set<Id>, id: Id)
    requires id in MilestoneService.FindForD1Notification(MarkAll(AdvanceStale(ms, now), sentD7, NotifiedD7), now)
    requires id !in sentD1
    requires DayNumber(later) == DayNumber(now)
    ensures id in MilestoneService.FindForD1Notification(
      MarkAll(AdvanceStale(AfterRun(ms, now, sentD7, sentD1, sentDelayed), later), nextD7, NotifiedD7), later)
  {
    var after := AfterRun(ms, now, sentD7, sentD1, sentDelayed);
    AfterRunFlags(ms, now, sentD7, sentD1, sentDelayed, id);
    assert id !in StaleIds(after, later);
  }

  /**
   * A delayed candidate whose notice was not delivered is still one at any
   * later run, whatever that run's D-7 and D-1 steps send.
   */
  lemma FailedDelayedStaysEligible(ms: map<Id, Milestone>, now: Time, later: Time, sentD7: set<Id>,
                                   sentD1: set<Id>, sentDelayed: set<Id>, nextD7: set<Id>, nextD1: set<Id>,
                                   id: Id)
    requires id in DelayedCandidates(MarkAll(MarkAll(AdvanceStale(ms, now), sentD7, NotifiedD7), sentD1, NotifiedD1), now)
    requires id !in sentDelayed
    requires now <= later
    ensures id in DelayedCandidates(
      MarkAll(MarkAll(AdvanceStale(AfterRun(ms, now, sentD7, sentD1, sentDelayed), later), nextD7, NotifiedD7),
              nextD1, NotifiedD1), later)
  {
    AfterRunFlags(ms, now, sentD7, sentD1, sentDelayed, id);
    DayNumberMonotone(now, later);
  }

  /** A milestone sent the D-7 notice in one run is never a D-7 candidate in a later run. */
  lemma SentD7Once(ms: map<Id, Milestone>, now: Time, later: Time, sentD7: set<Id>, sentD1: set<Id>,
                   sentDelayed: set<Id>, id: Id)
    requires id in ms && id in sentD7
    ensures id !in MilestoneService.FindForD7Notification(
      AdvanceStale(AfterRun(ms, now, sentD7, sentD1, sentDelayed), later), later)
  {
    AfterRunFlags(ms, now, sentD7, sentD1, sentDelayed, id);
  }

  /** A milestone sent the D-1 notice in one run is never a D-1 candidate in a later run. */
  lemma SentD1Once(ms: map<Id, Milestone>, now: Time, later: Time, sentD7: set<Id>, sentD1: set<Id>,
                   sentDelayed: set<Id>, nextD7: set<Id>, id: Id)
    requires id in ms && id in sentD1
    ensures id !in MilestoneService.FindForD1Notification(
      MarkAll(AdvanceStale(AfterRun(ms, now, sentD7, sentD1, sentDelayed), later), nextD7, NotifiedD7), later)
  {
    AfterRunFlags(ms, now, sentD7, sentD1, sentDelayed, id);
  }

  /** A milestone sent the delayed notice in one run is never a delayed candidate in a later run. */
  lemma SentDelayedOnce(ms: map<Id, Milestone>, now: Time, later: Time, sentD7: set<Id>, sentD1: set<Id>,
                        sentDelayed: set<Id>, nextD7: set<Id>, nextD1: set<Id>, id: Id)
    requires id in ms && id in sentDelayed
    ensures id !in DelayedCandidates(
      MarkAll(MarkAll(AdvanceStale(AfterRun(ms, now, sentD7, sentD1, sentDelayed), later), nextD7, NotifiedD7),
              nextD1, NotifiedD1), later)
  {
    AfterRunFlags(ms, now, sentD7, sentD1, sentDelayed, id);
  }
}
