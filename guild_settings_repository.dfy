/** The guild settings table of src/repositories/guild-settings.repository.ts: one row per guild. */
module GuildSettingsRepository {
  import opened Wrappers
  import opened Store

  /** The row created for a guild with nothing else supplied. */
  const Blank := GuildSettings(None, None, None, None)

  /** UpdateGuildSettingsDto: a field left `None` is not written. */
  datatype SettingsPatch = SettingsPatch(
    notificationChannelId: Option<string>,
    adminRoleId: Option<string>,
    pmRoleId: Option<string>,
    timezone: Option<string>)

  function ApplyPatch(s: GuildSettings, p: SettingsPatch): GuildSettings {
    GuildSettings(
      if p.notificationChannelId.Some? then p.notificationChannelId else s.notificationChannelId,
      if p.adminRoleId.Some? then p.adminRoleId else s.adminRoleId,
      if p.pmRoleId.Some? then p.pmRoleId else s.pmRoleId,
      if p.timezone.Some? then p.timezone else s.timezone)
  }

  /** The table after `findOrCreate(g)`: an existing row is kept, otherwise a blank row is added. */
  function FoundOrCreated(table: map<string, GuildSettings>, g: string): (r: map<string, GuildSettings>)
    ensures g in r && r.Keys == table.Keys + {g}
    ensures g in table ==> r == table
    ensures g !in table ==> r[g] == Blank && (forall h :: h in table ==> r[h] == table[h])
  {
    if g in table then table else table[g := Blank]
  }

  /** A second `findOrCreate` finds the row the first one left and inserts nothing. */
  lemma FindOrCreateIdempotent(table: map<string, GuildSettings>, g: string)
    ensures FoundOrCreated(FoundOrCreated(table, g), g) == FoundOrCreated(table, g)
  {
  }

  /** `findOrCreate`. */
  method FindOrCreate(db: Database, g: string) returns (settings: GuildSettings)
    modifies db`guildSettings
    ensures db.guildSettings == FoundOrCreated(old(db.guildSettings), g)
    ensures settings == db.guildSettings[g]
    ensures g in old(db.guildSettings) ==> settings == old(db.guildSettings)[g]
  {
    var found: Option<GuildSettings> := if g in db.guildSettings then Some(db.guildSettings[g]) else None;
    if found.None? {
      db.guildSettings := db.guildSettings[g := Blank];
      found := Some(Blank);
    }
    settings := found.value;
  }

  /** `findByGuildId`. */
  function FindByGuildId(table: map<string, GuildSettings>, g: string): (r: Option<GuildSettings>)
    ensures r.Some? <==> g in table
    ensures r.Some? ==> r.value == table[g]
  {
    if g in table then Some(table[g]) else None
  }

  /**
   * The table after an upsert of p for g: g has a row, its supplied fields
   * are set, its other fields are those of the old row (or empty for a new
   * row), and every other row is unchanged.
   */
  function Upserted(table: map<string, GuildSettings>, g: string, p: SettingsPatch): (r: map<string, GuildSettings>)
    ensures r.Keys == table.Keys + {g}
    ensures forall h :: h in table && h != g ==> r[h] == table[h]
    ensures p.notificationChannelId.Some? ==> r[g].notificationChannelId == p.notificationChannelId
    ensures p.adminRoleId.Some? ==> r[g].adminRoleId == p.adminRoleId
    ensures p.pmRoleId.Some? ==> r[g].pmRoleId == p.pmRoleId
    ensures p.timezone.Some? ==> r[g].timezone == p.timezone
    ensures var before := if g in table then table[g] else Blank;
      && (p.notificationChannelId.None? ==> r[g].notificationChannelId == before.notificationChannelId)
      && (p.adminRoleId.None? ==> r[g].adminRoleId == before.adminRoleId)
      && (p.pmRoleId.None? ==> r[g].pmRoleId == before.pmRoleId)
      && (p.timezone.None? ==> r[g].timezone == before.timezone)
  {
    if g in table then table[g := ApplyPatch(table[g], p)] else table[g := ApplyPatch(Blank, p)]
  }

  /** Prisma `upsert` on the guild id, shared by `update` and the `set*` operations. */
  method Upsert(db: Database, g: string, p: SettingsPatch) returns (settings: GuildSettings)
    modifies db`guildSettings
    ensures db.guildSettings == Upserted(old(db.guildSettings), g, p)
    ensures settings == db.guildSettings[g]
  {
    if g in db.guildSettings {
      settings := ApplyPatch(db.guildSettings[g], p);
    } else {
      settings := ApplyPatch(Blank, p);
    }
    db.guildSettings := db.guildSettings[g := settings];
  }

  /** `update(g, data)`. */
  method Update(db: Database, g: string, data: SettingsPatch) returns (settings: GuildSettings)
    modifies db`guildSettings
    ensures db.guildSettings == Upserted(old(db.guildSettings), g, data)
    ensures settings == db.guildSettings[g]
  {
    settings := Upsert(db, g, data);
  }

  /** `setNotificationChannel`. */
  method SetNotificationChannel(db: Database, g: string, channelId: string) returns (settings: GuildSettings)
    modifies db`guildSettings
    ensures db.guildSettings == Upserted(old(db.guildSettings), g, SettingsPatch(Some(channelId), None, None, None))
    ensures settings == db.guildSettings[g] && settings.notificationChannelId == Some(channelId)
  {
    settings := Upsert(db, g, SettingsPatch(Some(channelId), None, None, None));
  }

  /** `setAdminRole`. */
  method SetAdminRole(db: Database, g: string, roleId: string) returns (settings: GuildSettings)
    modifies db`guildSettings
    ensures db.guildSettings == Upserted(old(db.guildSettings), g, SettingsPatch(None, Some(roleId), None, None))
    ensures settings == db.guildSettings[g] && settings.adminRoleId == Some(roleId)
  {
    settings := Upsert(db, g, SettingsPatch(None, Some(roleId), None, None));
  }

  /** `setPMRole`. */
  method SetPmRole(db: Database, g: string, roleId: string) returns (settings: GuildSettings)
    modifies db`guildSettings
    ensures db.guildSettings == Upserted(old(db.guildSettings), g, SettingsPatch(None, None, Some(roleId), None))
    ensures settings == db.guildSettings[g] && settings.pmRoleId == Some(roleId)
  {
    settings := Upsert(db, g, SettingsPatch(None, None, Some(roleId), None));
  }

  /** `setTimezone`. */
  method SetTimezone(db: Database, g: string, timezone: string) returns (settings: GuildSettings)
    modifies db`guildSettings
    ensures db.guildSettings == Upserted(old(db.guildSettings), g, SettingsPatch(None, None, None, Some(timezone)))
    ensures settings == db.guildSettings[g] && settings.timezone == Some(timezone)
  {
    settings := Upsert(db, g, SettingsPatch(None, None, None, Some(timezone)));
  }

  /** `findWithNotificationChannel`: the guilds whose channel column is not null (an empty string counts). */
  function FindWithNotificationChannel(table: map<string, GuildSettings>): (r: set<string>)
    ensures forall g :: g in r <==> g in table && table[g].notificationChannelId != None
  {
    set g | g in table && table[g].notificationChannelId.Some?
  }

  /** Setting a channel puts the guild among those with one, and keeps the others as they were. */
  lemma ChannelSetIsFound(table: map<string, GuildSettings>, g: string, channelId: string)
    ensures var after := Upserted(table, g, SettingsPatch(Some(channelId), None, None, None));
      FindWithNotificationChannel(after) == FindWithNotificationChannel(table) + {g}
  {
    var after := Upserted(table, g, SettingsPatch(Some(channelId), None, None, None));
    assert FindWithNotificationChannel(after) == FindWithNotificationChannel(table) + {g};
  }
}
