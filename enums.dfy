/** The closed enumerations of src/types/enums.ts. */
module Enums {

  datatype ProjectStatus = PLANNING | IN_PROGRESS | ISSUE | ON_HOLD | COMPLETED

  datatype MilestoneStatus = SCHEDULED | COMPLETED | DELAYED

  datatype IssueImpact = LOW | MEDIUM | HIGH | CRITICAL

  datatype IssueStatus = OPEN | IN_ACTION | RESOLVED | CLOSED

  datatype ParticipantRole = PM | MEMBER

  /** The string stored in the database for an impact (the values of `IssueImpact`). */
  function ImpactName(i: IssueImpact): string {
    match i
    case LOW => "LOW"
    case MEDIUM => "MEDIUM"
    case HIGH => "HIGH"
    case CRITICAL => "CRITICAL"
  }

  /** An issue is active while it is OPEN or IN_ACTION. */
  predicate IsActive(s: IssueStatus) {
    s == OPEN || s == IN_ACTION
  }

  const AllProjectStatuses: seq<ProjectStatus> := [PLANNING, IN_PROGRESS, ISSUE, ON_HOLD, ProjectStatus.COMPLETED]
  const AllMilestoneStatuses: seq<MilestoneStatus> := [SCHEDULED, MilestoneStatus.COMPLETED, DELAYED]
  const AllIssueStatuses: seq<IssueStatus> := [OPEN, IN_ACTION, RESOLVED, CLOSED]
  const AllIssueImpacts: seq<IssueImpact> := [LOW, MEDIUM, HIGH, CRITICAL]
}
