/**
 * The delivery step of src/services/notification.service.ts, reduced to
 * its one rule: a guild without a settings row or with an empty channel
 * id gets nothing; otherwise the outcome of fetching the channel and
 * posting to it is the caller-supplied answer of the Discord client.
 */
module Notifier {
  import opened Wrappers
  import opened Store
  import GuildSettingsRepository

  /** The guild has a settings row whose notification channel id is a non-empty string. */
  predicate HasChannel(settings: map<string, GuildSettings>, guildId: string) {
    guildId in settings && Truthy(settings[guildId].notificationChannelId)
  }

  /**
   * `getNotificationChannel` followed by `channel.send`: true iff a message
   * was posted.  `answer` is whether the client could fetch the channel and
   * post to it, once the settings row named one.
   */
  method Deliver(db: Database, guildId: string, answer: bool) returns (ok: bool)
    ensures ok <==> HasChannel(db.guildSettings, guildId) && answer
  {
    var settings := GuildSettingsRepository.FindByGuildId(db.guildSettings, guildId);
    if settings.None? || !Truthy(settings.value.notificationChannelId) {
      return false;
    }
    ok := answer;
  }
}
