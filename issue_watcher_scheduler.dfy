/**
 * `issueWatcherScheduler.run` (src/schedulers/issue-watcher.scheduler.ts):
 * warn about OPEN issues left unattended for three days, at most once every
 * six hours, and stamp `lastWarningAt` only when the warning was delivered.
 */
module IssueWatcherScheduler {
  import opened Wrappers
  import opened Enums
  import opened Dates
  import opened Store
  import IssueRepository
  import Notifier

  /** The thresholds the run passes to `findForWarning`. */
  const CooldownHours := 6
  const UnattendedDays := 3

  /** The issues the run selects at `now`. */
  function Eligible(issues: map<Id, Issue>, now: Time): (r: set<Id>)
    ensures forall id :: id in r <==>
      && id in issues
      && issues[id].status == OPEN
      && issues[id].createdAt + 3 * MsPerDay < now
      && (issues[id].lastWarningAt.None? || issues[id].lastWarningAt.value + 6 * MsPerHour < now)
  {
    IssueRepository.FindForWarning(issues, CooldownHours, UnattendedDays, now)
  }

  /** The table after warnings went out at `now` for the issues in ids; nothing else changes. */
  function WarnAll(issues: map<Id, Issue>, ids: set<Id>, now: Time): (r: map<Id, Issue>)
    ensures r.Keys == issues.Keys
    ensures forall id :: id in issues && id in ids ==> r[id] == issues[id].(lastWarningAt := Some(now))
    ensures forall id :: id in issues && id !in ids ==> r[id] == issues[id]
  {
    map id | id in issues :: if id in ids then issues[id].(lastWarningAt := Some(now)) else issues[id]
  }

  /** Warning one more issue extends a warned table by that row alone. */
  lemma WarnOneMore(issues: map<Id, Issue>, ids: set<Id>, id: Id, now: Time)
    requires id in issues && id !in ids
    ensures WarnAll(issues, ids + {id}, now) == WarnAll(issues, ids, now)[id := issues[id].(lastWarningAt := Some(now))]
  {
    var a, b := WarnAll(issues, ids + {id}, now), WarnAll(issues, ids, now)[id := issues[id].(lastWarningAt := Some(now))];
    assert a.Keys == b.Keys;
    forall k | k in a
      ensures a[k] == b[k]
    {
    }
  }

  /** The issue's guild has a channel and the client answered true for its warning. */
  ghost predicate Reached(issues0: map<Id, Issue>, projects: map<Id, Project>, settings: map<string, GuildSettings>,
                          delivers: Id -> bool, id: Id)
    requires id in issues0 && issues0[id].projectId in projects
  {
    Notifier.HasChannel(settings, projects[issues0[id].projectId].guildId) && delivers(id)
  }

  /**
   * The state of the loop: the issues already offered are exactly the
   * eligible ones not remaining, the warned ones among them are exactly
   * those reached, and the table is the starting one with exactly the
   * warned issues stamped.
   */
  ghost predicate Watched(issues0: map<Id, Issue>, projects: map<Id, Project>, settings: map<string, GuildSettings>,
                          delivers: Id -> bool, eligible: set<Id>, remaining: set<Id>, warned: set<Id>, now: Time,
                          issues: map<Id, Issue>) {
    && eligible <= issues0.Keys
    && (forall id :: id in issues0 ==> issues0[id].projectId in projects)
    && remaining <= eligible && warned <= eligible && warned !! remaining
    && issues == WarnAll(issues0, warned, now)
    && (forall id :: id in eligible && id !in remaining ==>
          (id in warned <==> Reached(issues0, projects, settings, delivers, id)))
  }

  /** Offering one issue keeps the loop state, whether or not the warning was delivered. */
  lemma WatchStep(issues0: map<Id, Issue>, projects: map<Id, Project>, settings: map<string, GuildSettings>,
                  delivers: Id -> bool, eligible: set<Id>, remaining: set<Id>, warned: set<Id>, now: Time,
                  issues: map<Id, Issue>, id: Id, delivered: bool)
    requires Watched(issues0, projects, settings, delivers, eligible, remaining, warned, now, issues)
    requires id in remaining
    requires delivered == Reached(issues0, projects, settings, delivers, id)
    ensures id in issues && issues[id].projectId == issues0[id].projectId
    ensures delivered ==>
      Watched(issues0, projects, settings, delivers, eligible, remaining - {id}, warned + {id}, now,
              issues[id := issues[id].(lastWarningAt := Some(now))])
    ensures !delivered ==> Watched(issues0, projects, settings, delivers, eligible, remaining - {id}, warned, now, issues)
  {
    if delivered {
      WarnOneMore(issues0, warned, id, now);
    }
  }

  /**
   * `run`: every eligible issue is offered to the notifier once;
   * `delivers(id)` is the client's answer for that issue's warning.  The ones
   * whose guild has a channel and whose warning was delivered are stamped
   * with `now`; a failed send does not stop the loop.
   */
  method Run(db: Database, now: Time, delivers: Id -> bool) returns (warned: set<Id>)
    requires db.Valid()
    modifies db`issues
    ensures db.Valid()
    ensures warned <= Eligible(old(db.issues), now)
    ensures forall id :: id in Eligible(old(db.issues), now) ==>
      (id in warned <==> Notifier.HasChannel(db.guildSettings, db.projects[old(db.issues)[id].projectId].guildId)
                         && delivers(id))
    ensures db.issues == WarnAll(old(db.issues), warned, now)
    ensures forall id :: id in warned ==>
      Notifier.HasChannel(db.guildSettings, db.projects[old(db.issues)[id].projectId].guildId)
  {
    var eligible := IssueRepository.FindForWarning(db.issues, CooldownHours, UnattendedDays, now);
    ghost var issues0 := db.issues;
    var remaining := eligible;
    warned := {};
    while remaining != {}
      invariant db.Valid()
      invariant Watched(issues0, db.projects, db.guildSettings, delivers, eligible, remaining, warned, now, db.issues)
      decreases |remaining|
    {
      var id :| id in remaining;
      var g := db.projects[db.issues[id].projectId].guildId;
      var ok := Notifier.Deliver(db, g, delivers(id));
      WatchStep(issues0, db.projects, db.guildSettings, delivers, eligible, remaining, warned, now, db.issues, id, ok);
      if ok {
        var _ := IssueRepository.UpdateWarningTime(db, id, now);
        warned := warned + {id};
      }
      remaining := remaining - {id};
    }
  }

  /** Only OPEN issues are ever warned. */
  lemma OnlyOpenWarned(issues: map<Id, Issue>, warned: set<Id>, now: Time, id: Id)
    requires warned <= Eligible(issues, now) && id in warned
    ensures issues[id].status == OPEN
  {
  }

  /** An eligible issue whose warning was not delivered is eligible at every later run. */
  lemma FailedWarningStaysEligible(issues: map<Id, Issue>, warned: set<Id>, now: Time, later: Time, id: Id)
    requires id in Eligible(issues, now) && id !in warned
    requires now <= later
    ensures id in Eligible(WarnAll(issues, warned, now), later)
  {
  }

  /**
   * A warned issue becomes eligible again exactly when more than six hours
   * have passed since the warning.
   */
  lemma WarnedCooldown(issues: map<Id, Issue>, warned: set<Id>, now: Time, later: Time, id: Id)
    requires warned <= Eligible(issues, now) && id in warned
    requires now <= later
    ensures id in Eligible(WarnAll(issues, warned, now), later) <==> later > now + 6 * MsPerHour
  {
    var after := WarnAll(issues, warned, now);
    assert after[id] == issues[id].(lastWarningAt := Some(now));
  }
}
