/**
 * The permission levels of src/utils/permissions.ts: how a member's level
 * is derived from Discord's Administrator flag and the guild's configured
 * roles, and how a level is compared with the level a command requires.
 */
module Permissions {
  import opened Wrappers
  import opened Enums
  import opened Store

  datatype PermissionLevel = Admin | Pm | User

  /** `getPermissionWeight`. */
  function Weight(level: PermissionLevel): (w: nat)
    ensures 1 <= w <= 3
  {
    match level
    case Admin => 3
    case Pm => 2
    case User => 1
  }

  /** The weights order the levels strictly: admin above pm above user. */
  lemma WeightOrder(a: PermissionLevel, b: PermissionLevel)
    ensures Weight(a) == Weight(b) <==> a == b
    ensures Weight(Admin) > Weight(Pm) > Weight(User)
  {
  }

  /** The part of the calling member the decision looks at. */
  datatype Member = Member(isAdministrator: bool, roleIds: set<string>)

  /** The part of the command interaction the decision looks at. */
  datatype Interaction = Interaction(member: Option<Member>, guildId: Option<string>)

  /** The member holds the role a settings column names, when the column is non-empty. */
  predicate HoldsRole(m: Member, roleId: Option<string>) {
    Truthy(roleId) && roleId.value in m.roleIds
  }

  /**
   * `getUserPermissionLevel`: user without a member or a guild; admin for
   * the Administrator flag; then, when the guild has a settings row, admin
   * for the admin role and pm for the pm role; user otherwise.
   */
  function UserPermissionLevel(settings: map<string, GuildSettings>, it: Interaction): (level: PermissionLevel)
    ensures it.member.None? || !Truthy(it.guildId) ==> level == User
    ensures level == Admin <==>
      && it.member.Some? && Truthy(it.guildId)
      && (|| it.member.value.isAdministrator
          || (it.guildId.value in settings && HoldsRole(it.member.value, settings[it.guildId.value].adminRoleId)))
    ensures level == Pm <==>
      && it.member.Some? && Truthy(it.guildId)
      && !it.member.value.isAdministrator
      && it.guildId.value in settings
      && !HoldsRole(it.member.value, settings[it.guildId.value].adminRoleId)
      && HoldsRole(it.member.value, settings[it.guildId.value].pmRoleId)
  {
    if it.member.None? || !Truthy(it.guildId) then User
    else if it.member.value.isAdministrator then Admin
    else if it.guildId.value in settings then
      var s := settings[it.guildId.value];
      if HoldsRole(it.member.value, s.adminRoleId) then Admin
      else if HoldsRole(it.member.value, s.pmRoleId) then Pm
      else User
    else User
  }

  /** The display names of the levels in the denial message. */
  function LevelName(level: PermissionLevel): string {
    match level
    case Admin => "관리자"
    case Pm => "PM"
    case User => "일반"
  }

  datatype CheckResult = CheckResult(allowed: bool, reason: Option<string>, level: PermissionLevel)

  /**
   * `checkPermission`: allowed iff the member's weight reaches the required
   * one; a denial carries a message naming the required level; the member's
   * level is reported either way.
   */
  function CheckPermission(settings: map<string, GuildSettings>, it: Interaction, required: PermissionLevel)
    : (r: CheckResult)
    ensures r.level == UserPermissionLevel(settings, it)
    ensures r.allowed <==> Weight(r.level) >= Weight(required)
    ensures r.allowed <==> r.reason.None?
    ensures !r.allowed ==> r.reason == Some("이 명령어는 " + LevelName(required) + " 이상의 권한이 필요합니다.")
  {
    var level := UserPermissionLevel(settings, it);
    if Weight(level) >= Weight(required) then CheckResult(true, None, level)
    else CheckResult(false, Some("이 명령어는 " + LevelName(required) + " 이상의 권한이 필요합니다."), level)
  }

  /** An admin passes every check; a user passes only a check that requires user. */
  lemma AdminAndUserChecks(settings: map<string, GuildSettings>, it: Interaction, required: PermissionLevel)
    ensures UserPermissionLevel(settings, it) == Admin ==> CheckPermission(settings, it, required).allowed
    ensures UserPermissionLevel(settings, it) == User ==>
      (CheckPermission(settings, it, required).allowed <==> required == User)
  {
  }

  /** Passing a check implies passing every check that requires a lower level. */
  lemma CheckMonotone(settings: map<string, GuildSettings>, it: Interaction, r1: PermissionLevel, r2: PermissionLevel)
    requires CheckPermission(settings, it, r1).allowed
    requires Weight(r2) <= Weight(r1)
    ensures CheckPermission(settings, it, r2).allowed
  {
  }

  /**
   * `requirePermission`: the outcome of the check (the reply sent on a
   * denial is not modelled).
   */
  function RequirePermission(settings: map<string, GuildSettings>, it: Interaction, required: PermissionLevel)
    : (ok: bool)
    ensures ok <==> Weight(UserPermissionLevel(settings, it)) >= Weight(required)
    ensures ok == CheckPermission(settings, it, required).allowed
  {
    CheckPermission(settings, it, required).allowed
  }

  /** `isProjectPM`: the project exists and its PM is the given user. */
  predicate IsProjectPM(projects: map<Id, Project>, projectId: Id, discordId: string) {
    projectId in projects && projects[projectId].pmId == discordId
  }

  /** `isProjectParticipant`: the participant row exists. */
  predicate IsProjectParticipant(participants: map<(Id, string), ParticipantRole>, projectId: Id, discordId: string) {
    (projectId, discordId) in participants
  }
}
