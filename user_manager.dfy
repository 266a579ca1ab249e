/**
 * The settings layer over `user_settings` and `group_settings`: getters that fall back to
 * the defaults when a chat or user has no row, setters that write one column, and the two
 * toggles that store and return the negation of the current value. Ids are integers here
 * and become table keys through `str()`.
 */
module UserManager {
  import opened Wrappers
  import opened Text
  import opened Database

  /** A stored language code counts only when it is present and non-empty (Python truthiness). */
  function Truthy(code: Option<string>): (r: Option<string>)
    ensures r.Some? <==> code.Some? && code.value != ""
    ensures r.Some? ==> r == code
  {
    if code.Some? && code.value != "" then code else None
  }

  /** `get_user_language`. */
  function GetUserLanguage(table: map<string, UserSettings>, userId: int): (r: Option<string>)
    ensures IntToString(userId) !in table ==> r == None
    ensures IntToString(userId) in table ==> r == Truthy(table[IntToString(userId)].languageCode)
  {
    var key := IntToString(userId);
    if key in table then Truthy(table[key].languageCode) else None
  }

  /** `is_user_ranking_enabled`: a user without a row takes part. */
  function IsUserRankingEnabled(table: map<string, UserSettings>, userId: int): (r: bool)
    ensures IntToString(userId) !in table ==> r
    ensures IntToString(userId) in table ==> r == table[IntToString(userId)].rankingEnabled
  {
    var key := IntToString(userId);
    key !in table || table[key].rankingEnabled
  }

  /** `get_group_language`. */
  function GetGroupLanguage(table: map<string, GroupSettings>, chatId: int): (r: Option<string>)
    ensures IntToString(chatId) !in table ==> r == None
    ensures IntToString(chatId) in table ==> r == Truthy(table[IntToString(chatId)].languageCode)
  {
    var key := IntToString(chatId);
    if key in table then Truthy(table[key].languageCode) else None
  }

  /** `is_auto_chat_on`: off without a row. */
  function IsAutoChatOn(table: map<string, GroupSettings>, chatId: int): (r: bool)
    ensures IntToString(chatId) !in table ==> !r
    ensures IntToString(chatId) in table ==> r == table[IntToString(chatId)].autochatEnabled
  {
    var key := IntToString(chatId);
    key in table && table[key].autochatEnabled
  }

  /** `is_spam_filter_on`: on without a row. */
  function IsSpamFilterOn(table: map<string, GroupSettings>, chatId: int): (r: bool)
    ensures IntToString(chatId) !in table ==> r
    ensures IntToString(chatId) in table ==> r == table[IntToString(chatId)].spamFilterEnabled
  {
    var key := IntToString(chatId);
    key !in table || table[key].spamFilterEnabled
  }

  /** `is_group_checkin_on`: off without a row. */
  function IsGroupCheckinOn(table: map<string, GroupSettings>, chatId: int): (r: bool)
    ensures IntToString(chatId) !in table ==> !r
    ensures IntToString(chatId) in table ==> r == table[IntToString(chatId)].checkinEnabled
  {
    var key := IntToString(chatId);
    key in table && table[key].checkinEnabled
  }

  /**
   * The getters' fallbacks are the column defaults: a user or chat without a row reads
   * exactly as one whose row was just inserted with default values.
   */
  lemma GettersMatchRowDefaults(users: map<string, UserSettings>, groups: map<string, GroupSettings>, id: int)
    ensures var key := IntToString(id);
      key !in users ==>
        && IsUserRankingEnabled(users, id) == IsUserRankingEnabled(users[key := DefaultUserSettings], id)
        && GetUserLanguage(users, id) == GetUserLanguage(users[key := DefaultUserSettings], id)
    ensures var key := IntToString(id);
      key !in groups ==>
        && GetGroupLanguage(groups, id) == GetGroupLanguage(groups[key := DefaultGroupSettings], id)
        && IsAutoChatOn(groups, id) == IsAutoChatOn(groups[key := DefaultGroupSettings], id)
        && IsSpamFilterOn(groups, id) == IsSpamFilterOn(groups[key := DefaultGroupSettings], id)
        && IsGroupCheckinOn(groups, id) == IsGroupCheckinOn(groups[key := DefaultGroupSettings], id)
  {
  }

  /** `set_user_language`. */
  method SetUserLanguage(db: Store, userId: int, code: string)
    modifies db`userSettings
    ensures db.userSettings == UserSettingsUpsert(old(db.userSettings), IntToString(userId), [UserLanguage(Some(code))])
  {
    db.UpdateUserSetting(IntToString(userId), [UserLanguage(Some(code))]);
  }

  /** `toggle_user_ranking_participation`: stores and returns the negation of the current value. */
  method ToggleUserRankingParticipation(db: Store, userId: int) returns (status: bool)
    modifies db`userSettings
    ensures status == !IsUserRankingEnabled(old(db.userSettings), userId)
    ensures db.userSettings == UserSettingsUpsert(old(db.userSettings), IntToString(userId), [RankingEnabled(status)])
  {
    var current := IsUserRankingEnabled(db.userSettings, userId);
    status := !current;
    db.UpdateUserSetting(IntToString(userId), [RankingEnabled(status)]);
  }

  /** The toggle takes effect, keeps the user's language and touches nobody else. */
  lemma RankingToggleFlips(table: map<string, UserSettings>, userId: int)
    ensures var key := IntToString(userId);
      var r := UserSettingsUpsert(table, key, [RankingEnabled(!IsUserRankingEnabled(table, userId))]);
      && IsUserRankingEnabled(r, userId) == !IsUserRankingEnabled(table, userId)
      && GetUserLanguage(r, userId) == GetUserLanguage(table, userId)
      && forall u :: u in table && u != key ==> u in r && r[u] == table[u]
  {
    var key := IntToString(userId);
    SetRankingKeepsLanguage(table, key, !IsUserRankingEnabled(table, userId));
  }

  /** `set_group_language`. */
  method SetGroupLanguage(db: Store, chatId: int, code: string)
    modifies db`groupSettings
    ensures db.groupSettings == GroupSettingsUpsert(old(db.groupSettings), IntToString(chatId), [GroupLanguage(Some(code))])
  {
    db.UpdateGroupSetting(IntToString(chatId), [GroupLanguage(Some(code))]);
  }

  /** `set_auto_chat_mode`. */
  method SetAutoChatMode(db: Store, chatId: int, on: bool)
    modifies db`groupSettings
    ensures db.groupSettings == GroupSettingsUpsert(old(db.groupSettings), IntToString(chatId), [AutochatEnabled(on)])
  {
    db.UpdateGroupSetting(IntToString(chatId), [AutochatEnabled(on)]);
  }

  /** `set_spam_filter_mode`. */
  method SetSpamFilterMode(db: Store, chatId: int, on: bool)
    modifies db`groupSettings
    ensures db.groupSettings == GroupSettingsUpsert(old(db.groupSettings), IntToString(chatId), [SpamFilterEnabled(on)])
  {
    db.UpdateGroupSetting(IntToString(chatId), [SpamFilterEnabled(on)]);
  }

  /** `toggle_group_checkin`: stores and returns the negation of the current value. */
  method ToggleGroupCheckin(db: Store, chatId: int) returns (status: bool)
    modifies db`groupSettings
    ensures status == !IsGroupCheckinOn(old(db.groupSettings), chatId)
    ensures db.groupSettings == GroupSettingsUpsert(old(db.groupSettings), IntToString(chatId), [CheckinEnabled(status)])
  {
    var current := IsGroupCheckinOn(db.groupSettings, chatId);
    status := !current;
    db.UpdateGroupSetting(IntToString(chatId), [CheckinEnabled(status)]);
  }

  /** A group setter writes its own column and keeps the other three. */
  lemma SetGroupFieldKeepsOthers(table: map<string, GroupSettings>, chatId: int, f: GroupField)
    ensures var key := IntToString(chatId);
      var r := GroupSettingsUpsert(table, key, [f]);
      && (!f.GroupLanguage? ==> GetGroupLanguage(r, chatId) == GetGroupLanguage(table, chatId))
      && (!f.AutochatEnabled? ==> IsAutoChatOn(r, chatId) == IsAutoChatOn(table, chatId))
      && (!f.SpamFilterEnabled? ==> IsSpamFilterOn(r, chatId) == IsSpamFilterOn(table, chatId))
      && (!f.CheckinEnabled? ==> IsGroupCheckinOn(r, chatId) == IsGroupCheckinOn(table, chatId))
      && (f.GroupLanguage? ==> GetGroupLanguage(r, chatId) == Truthy(f.code))
      && (f.AutochatEnabled? ==> IsAutoChatOn(r, chatId) == f.enabled)
      && (f.SpamFilterEnabled? ==> IsSpamFilterOn(r, chatId) == f.enabled)
      && (f.CheckinEnabled? ==> IsGroupCheckinOn(r, chatId) == f.enabled)
  {
    var key := IntToString(chatId);
    var prior := if key in table then table[key] else DefaultGroupSettings;
    assert [f][1..] == [];
    assert ApplyGroupFields(prior, [f]) == ApplyGroupFields(ApplyGroupField(prior, f), []);
  }

  /** The check-in toggle takes effect and leaves language, autochat and spam filter alone. */
  lemma CheckinToggleFlips(table: map<string, GroupSettings>, chatId: int)
    ensures var r := GroupSettingsUpsert(table, IntToString(chatId), [CheckinEnabled(!IsGroupCheckinOn(table, chatId))]);
      && IsGroupCheckinOn(r, chatId) == !IsGroupCheckinOn(table, chatId)
      && IsAutoChatOn(r, chatId) == IsAutoChatOn(table, chatId)
      && IsSpamFilterOn(r, chatId) == IsSpamFilterOn(table, chatId)
      && GetGroupLanguage(r, chatId) == GetGroupLanguage(table, chatId)
  {
    SetGroupFieldKeepsOthers(table, chatId, CheckinEnabled(!IsGroupCheckinOn(table, chatId)));
  }
}
