/**
 * The SQLite tables of the statistics module and the writes the bot performs on them.
 * Each table is a field of `Store` keyed by its primary or unique key; each `db_*` write
 * is a method whose new state is given by a pure function of the old one, and the
 * properties of the writes are lemmas about those functions.
 *
 * Ids are the text the bot stores (`str(id)`); instants are microseconds of the UTC clock.
 */
module Database {
  import opened Wrappers
  import opened Text
  import opened Time
  import opened Ranking

  /** A `(chat_id, user_id)` key. */
  type ChatUser = (string, string)

  // ---------------------------------------------------------------------------------
  // known_chats

  datatype KnownChat = KnownChat(title: string, addedBy: Option<string>, dateAdded: Option<int>)

  /**
   * `update_known_chat`: only supergroups with a non-empty title are recorded; the title
   * always takes the new value, `added_by_user_id` and `date_added` keep the first value
   * written (`COALESCE(known_chats.x, excluded.x)`).
   */
  function KnownChatUpsert(chats: map<string, KnownChat>, chatId: string, title: Option<string>,
                           addedBy: Option<int>, now: int): (r: map<string, KnownChat>)
    ensures !IsGroupId(chatId) || title.None? || title.value == [] ==> r == chats
    ensures r.Keys <= chats.Keys + {chatId}
    ensures forall c :: c in chats && c != chatId ==> c in r && r[c] == chats[c]
  {
    if !IsGroupId(chatId) || title.None? || title.value == [] then chats
    else
      var inviter := if addedBy.Some? && addedBy.value != 0 then Some(IntToString(addedBy.value)) else None;
      var date := if inviter.Some? then Some(now) else None;
      if chatId in chats then
        var prior := chats[chatId];
        if inviter.Some? then
          chats[chatId := KnownChat(title.value, if prior.addedBy.Some? then prior.addedBy else inviter,
                                    if prior.dateAdded.Some? then prior.dateAdded else date)]
        else chats[chatId := prior.(title := title.value)]
      else chats[chatId := KnownChat(title.value, inviter, date)]
  }

  /** A recorded chat's title is the newest one written. */
  lemma KnownChatTitleIsLatest(chats: map<string, KnownChat>, chatId: string, title: string,
                               addedBy: Option<int>, now: int)
    requires IsGroupId(chatId) && title != []
    ensures var r := KnownChatUpsert(chats, chatId, Some(title), addedBy, now);
      chatId in r && r[chatId].title == title
  {
  }

  /** Once `added_by_user_id`/`date_added` are set, no later upsert changes them. */
  lemma KnownChatFirstWriterWins(chats: map<string, KnownChat>, chatId: string, title: Option<string>,
                                 addedBy: Option<int>, now: int)
    requires chatId in chats && chats[chatId].addedBy.Some?
    ensures var r := KnownChatUpsert(chats, chatId, title, addedBy, now);
      chatId in r && r[chatId].addedBy == chats[chatId].addedBy
    ensures chats[chatId].dateAdded.Some? ==>
      var r := KnownChatUpsert(chats, chatId, title, addedBy, now);
      r[chatId].dateAdded == chats[chatId].dateAdded
  {
  }

  /** The first upsert that names the inviter records it, with the time. */
  lemma KnownChatRecordsInviter(chats: map<string, KnownChat>, chatId: string, title: string, who: int, now: int)
    requires IsGroupId(chatId) && title != [] && who != 0
    requires chatId !in chats || chats[chatId].addedBy.None?
    ensures var r := KnownChatUpsert(chats, chatId, Some(title), Some(who), now);
      r[chatId].addedBy == Some(IntToString(who))
  {
  }

  // ---------------------------------------------------------------------------------
  // user_settings / group_settings

  datatype UserSettings = UserSettings(languageCode: Option<string>, rankingEnabled: bool)

  /** The column defaults of `user_settings` (`ranking_enabled DEFAULT 1`). */
  const DefaultUserSettings := UserSettings(None, true)

  datatype GroupSettings = GroupSettings(languageCode: Option<string>, autochatEnabled: bool,
                                         spamFilterEnabled: bool, checkinEnabled: bool)

  /** The column defaults of `group_settings`: autochat off, spam filter on, check-in off. */
  const DefaultGroupSettings := GroupSettings(None, false, true, false)

  /** One `column = value` of the `**kwargs` of `db_update_user_setting`. */
  datatype UserField = UserLanguage(code: Option<string>) | RankingEnabled(enabled: bool)

  /** One `column = value` of the `**kwargs` of `db_update_group_setting`. */
  datatype GroupField =
    | GroupLanguage(code: Option<string>)
    | AutochatEnabled(enabled: bool)
    | SpamFilterEnabled(enabled: bool)
    | CheckinEnabled(enabled: bool)

  function ApplyUserField(s: UserSettings, f: UserField): UserSettings {
    match f
    case UserLanguage(code) => s.(languageCode := code)
    case RankingEnabled(b) => s.(rankingEnabled := b)
  }

  function ApplyGroupField(s: GroupSettings, f: GroupField): GroupSettings {
    match f
    case GroupLanguage(code) => s.(languageCode := code)
    case AutochatEnabled(b) => s.(autochatEnabled := b)
    case SpamFilterEnabled(b) => s.(spamFilterEnabled := b)
    case CheckinEnabled(b) => s.(checkinEnabled := b)
  }

  function ApplyUserFields(s: UserSettings, fs: seq<UserField>): UserSettings
    decreases |fs|
  {
    if fs == [] then s else ApplyUserFields(ApplyUserField(s, fs[0]), fs[1..])
  }

  function ApplyGroupFields(s: GroupSettings, fs: seq<GroupField>): GroupSettings
    decreases |fs|
  {
    if fs == [] then s else ApplyGroupFields(ApplyGroupField(s, fs[0]), fs[1..])
  }

  /**
   * `db_update_user_setting`: nothing at all when no column is given; otherwise
   * `INSERT OR IGNORE` a default row, then `UPDATE` the given columns.
   */
  function UserSettingsUpsert(table: map<string, UserSettings>, userId: string, fs: seq<UserField>)
    : (r: map<string, UserSettings>)
    ensures fs == [] ==> r == table
    ensures fs != [] ==> r.Keys == table.Keys + {userId}
    ensures forall u :: u in table && u != userId ==> r[u] == table[u]
  {
    if fs == [] then table
    else table[userId := ApplyUserFields(if userId in table then table[userId] else DefaultUserSettings, fs)]
  }

  /** `db_update_group_setting`, with the same shape. */
  function GroupSettingsUpsert(table: map<string, GroupSettings>, chatId: string, fs: seq<GroupField>)
    : (r: map<string, GroupSettings>)
    ensures fs == [] ==> r == table
    ensures fs != [] ==> r.Keys == table.Keys + {chatId}
    ensures forall c :: c in table && c != chatId ==> r[c] == table[c]
  {
    if fs == [] then table
    else table[chatId := ApplyGroupFields(if chatId in table then table[chatId] else DefaultGroupSettings, fs)]
  }

  /** Setting one column changes that column and keeps the other of the row. */
  lemma SetRankingKeepsLanguage(table: map<string, UserSettings>, userId: string, b: bool)
    ensures var r := UserSettingsUpsert(table, userId, [RankingEnabled(b)]);
      && r[userId].rankingEnabled == b
      && r[userId].languageCode == (if userId in table then table[userId].languageCode else None)
  {
    var prior := if userId in table then table[userId] else DefaultUserSettings;
    assert [RankingEnabled(b)][1..] == [];
    assert ApplyUserFields(prior, [RankingEnabled(b)]) == ApplyUserFields(prior.(rankingEnabled := b), []);
  }

  /** `db_get_all_ranking_opt_out_users`: the users whose row says `ranking_enabled = 0`. */
  function OptOuts(table: map<string, UserSettings>): (r: set<string>)
    ensures forall u :: u in r <==> u in table && !table[u].rankingEnabled
  {
    set u | u in table && !table[u].rankingEnabled
  }

  /** Opting out puts the user on the opt-out list, opting back in takes them off; nobody else moves. */
  lemma OptOutToggle(table: map<string, UserSettings>, userId: string, b: bool)
    ensures var r := UserSettingsUpsert(table, userId, [RankingEnabled(b)]);
      && (userId in OptOuts(r) <==> !b)
      && (forall u :: u != userId ==> (u in OptOuts(r) <==> u in OptOuts(table)))
  {
    SetRankingKeepsLanguage(table, userId, b);
  }

  // ---------------------------------------------------------------------------------
  // faqs

  datatype FaqRow = FaqRow(id: int, chatId: string, question: string, answer: string, keywords: string)

  /** `AUTOINCREMENT` ids increase along the table and stay below the next id to hand out. */
  predicate IdsIncreasing(faqs: seq<FaqRow>) {
    forall i, j :: 0 <= i < j < |faqs| ==> faqs[i].id < faqs[j].id
  }

  predicate IdsBelow(faqs: seq<FaqRow>, nextId: int) {
    forall f :: f in faqs ==> 1 <= f.id < nextId
  }

  /** `UNIQUE(chat_id, question)`. */
  predicate QuestionsUnique(faqs: seq<FaqRow>) {
    forall i, j :: 0 <= i < j < |faqs| ==> !SameQuestion(faqs[i], faqs[j])
  }

  predicate SameQuestion(a: FaqRow, b: FaqRow) {
    a.chatId == b.chatId && a.question == b.question
  }

  predicate FaqsValid(faqs: seq<FaqRow>, nextId: int) {
    IdsIncreasing(faqs) && IdsBelow(faqs, nextId) && QuestionsUnique(faqs)
  }

  lemma IdsIncreasingCons(x: FaqRow, t: seq<FaqRow>)
    requires IdsIncreasing(t) && forall f :: f in t ==> x.id < f.id
    ensures IdsIncreasing([x] + t)
  {
    var s := [x] + t;
    forall i, j | 0 <= i < j < |s| ensures s[i].id < s[j].id {
      assert s[j] == t[j - 1] && t[j - 1] in t;
      if i > 0 { assert s[i] == t[i - 1]; }
    }
  }

  lemma QuestionsUniqueCons(x: FaqRow, t: seq<FaqRow>)
    requires QuestionsUnique(t) && forall f :: f in t ==> !SameQuestion(x, f)
    ensures QuestionsUnique([x] + t)
  {
    var s := [x] + t;
    forall i, j | 0 <= i < j < |s| ensures !SameQuestion(s[i], s[j]) {
      assert s[j] == t[j - 1] && t[j - 1] in t;
      if i > 0 { assert s[i] == t[i - 1]; }
    }
  }

  /** The tail of a table keeps its order, and its rows come after the head. */
  lemma TailFacts(faqs: seq<FaqRow>)
    requires faqs != []
    ensures IdsIncreasing(faqs) ==> IdsIncreasing(faqs[1..]) && forall f :: f in faqs[1..] ==> faqs[0].id < f.id
    ensures QuestionsUnique(faqs) ==> QuestionsUnique(faqs[1..]) && forall f :: f in faqs[1..] ==> !SameQuestion(faqs[0], f)
  {
    var t := faqs[1..];
    forall i | 0 <= i < |t| ensures t[i] == faqs[i + 1] { }
  }

  /** Appending a row with the next id and a new question keeps the table valid. */
  lemma FaqsValidSnoc(faqs: seq<FaqRow>, nextId: int, x: FaqRow)
    requires FaqsValid(faqs, nextId) && x.id == nextId && nextId >= 1
    requires !HasFaq(faqs, x.chatId, x.question)
    ensures FaqsValid(faqs + [x], nextId + 1)
  {
    var s := faqs + [x];
    forall i, j | 0 <= i < j < |s| ensures s[i].id < s[j].id && !SameQuestion(s[i], s[j]) {
      assert s[i] == faqs[i] && faqs[i] in faqs;
      if j < |faqs| { assert s[j] == faqs[j]; }
    }
    forall f | f in s ensures 1 <= f.id < nextId + 1 {
      if f != x { assert f in faqs; }
    }
  }

  predicate HasFaq(faqs: seq<FaqRow>, chatId: string, question: string) {
    exists i :: 0 <= i < |faqs| && faqs[i].chatId == chatId && faqs[i].question == question
  }

  /** `db_get_faqs_for_chat`: the chat's FAQs, `ORDER BY id ASC`. */
  function FaqsForChat(faqs: seq<FaqRow>, chatId: string): (r: seq<FaqRow>)
    ensures forall f :: f in r <==> f in faqs && f.chatId == chatId
    ensures |r| <= |faqs|
  {
    if faqs == [] then []
    else
      assert faqs == [faqs[0]] + faqs[1..];
      (if faqs[0].chatId == chatId then [faqs[0]] else []) + FaqsForChat(faqs[1..], chatId)
  }

  /** A chat's FAQs come in increasing id order. */
  lemma {:induction false} FaqsForChatOrdered(faqs: seq<FaqRow>, chatId: string)
    requires IdsIncreasing(faqs)
    ensures IdsIncreasing(FaqsForChat(faqs, chatId))
  {
    if faqs != [] {
      TailFacts(faqs);
      FaqsForChatOrdered(faqs[1..], chatId);
      if faqs[0].chatId == chatId {
        IdsIncreasingCons(faqs[0], FaqsForChat(faqs[1..], chatId));
      }
    }
  }

  /** `DELETE FROM faqs WHERE id = ?`. */
  function FaqsWithoutId(faqs: seq<FaqRow>, id: int): (r: seq<FaqRow>)
    ensures forall f :: f in r <==> f in faqs && f.id != id
    ensures (forall f :: f in faqs ==> f.id != id) ==> r == faqs
  {
    if faqs == [] then []
    else
      assert faqs == [faqs[0]] + faqs[1..];
      var rest := FaqsWithoutId(faqs[1..], id);
      if faqs[0].id == id then rest else [faqs[0]] + rest
  }

  /** Deleting by id keeps the table valid. */
  lemma {:induction false} FaqsWithoutIdValid(faqs: seq<FaqRow>, nextId: int, id: int)
    requires FaqsValid(faqs, nextId)
    ensures FaqsValid(FaqsWithoutId(faqs, id), nextId)
  {
    if faqs != [] {
      TailFacts(faqs);
      FaqsWithoutIdValid(faqs[1..], nextId, id);
      var rest := FaqsWithoutId(faqs[1..], id);
      if faqs[0].id != id {
        IdsIncreasingCons(faqs[0], rest);
        QuestionsUniqueCons(faqs[0], rest);
      }
    }
  }

  // ---------------------------------------------------------------------------------
  // user_warnings

  datatype WarningRow = WarningRow(count: int, last: Stamp)

  // ---------------------------------------------------------------------------------
  // user_points

  datatype PointsRow = PointsRow(points: int, lastUpdate: Stamp)

  /** The row `INSERT OR IGNORE` creates: 0 points, stamped the naive `datetime(1970, 1, 1)`. */
  const FreshPointsRow := PointsRow(0, Naive(0))

  function PointsRowOf(ledger: map<ChatUser, PointsRow>, key: ChatUser): PointsRow {
    if key in ledger then ledger[key] else FreshPointsRow
  }

  /** `db_get_user_points`: 0 when the user has no row. */
  function PointsOf(ledger: map<ChatUser, PointsRow>, key: ChatUser): int {
    PointsRowOf(ledger, key).points
  }

  /**
   * The cooldown gate of `db_add_points`: with a positive cooldown, an update less than
   * `cooldown` seconds ago rejects; a stamp that cannot be subtracted from the aware "now"
   * (naive or unparseable, the `except (ValueError, TypeError): pass`) lets the award through.
   */
  predicate CooldownPasses(row: PointsRow, cooldown: int, now: int) {
    cooldown <= 0 || !row.lastUpdate.Aware? || now - row.lastUpdate.at >= cooldown * Second
  }

  /** What `db_add_points` returns: whether the points were added, and the balance. */
  datatype Award = Award(added: bool, total: int)

  function AwardResult(ledger: map<ChatUser, PointsRow>, key: ChatUser, delta: int, cooldown: int, now: int)
    : (r: Award)
    ensures r.added <==> CooldownPasses(PointsRowOf(ledger, key), cooldown, now)
    ensures r.total == PointsOf(ledger, key) + (if r.added then delta else 0)
  {
    var row := PointsRowOf(ledger, key);
    if CooldownPasses(row, cooldown, now) then Award(true, row.points + delta) else Award(false, row.points)
  }

  function LedgerAfterAward(ledger: map<ChatUser, PointsRow>, key: ChatUser, delta: int, cooldown: int, now: int)
    : (r: map<ChatUser, PointsRow>)
    ensures forall k :: k != key ==> (k in r <==> k in ledger) && (k in ledger ==> r[k] == ledger[k])
  {
    var a := AwardResult(ledger, key, delta, cooldown, now);
    if a.added then ledger[key := PointsRow(a.total, Aware(now))] else ledger
  }

  /** A rejected award changes nothing and reports the current balance. */
  lemma AwardRejectedWithinCooldown(ledger: map<ChatUser, PointsRow>, key: ChatUser, delta: int,
                                    cooldown: int, now: int, last: int)
    requires key in ledger && ledger[key].lastUpdate == Aware(last)
    requires cooldown > 0 && now - last < cooldown * Second
    ensures AwardResult(ledger, key, delta, cooldown, now) == Award(false, ledger[key].points)
    ensures LedgerAfterAward(ledger, key, delta, cooldown, now) == ledger
  {
  }

  /** The first award for a user always passes the gate, whatever the cooldown. */
  lemma FirstAwardBypassesCooldown(ledger: map<ChatUser, PointsRow>, key: ChatUser, delta: int,
                                   cooldown: int, now: int)
    requires key !in ledger
    ensures AwardResult(ledger, key, delta, cooldown, now) == Award(true, delta)
    ensures LedgerAfterAward(ledger, key, delta, cooldown, now)[key] == PointsRow(delta, Aware(now))
  {
  }

  /** A zero cooldown never rejects. */
  lemma ZeroCooldownAlwaysAwards(ledger: map<ChatUser, PointsRow>, key: ChatUser, delta: int, now: int)
    ensures AwardResult(ledger, key, delta, 0, now) == Award(true, PointsOf(ledger, key) + delta)
    ensures LedgerAfterAward(ledger, key, delta, 0, now)[key] == PointsRow(PointsOf(ledger, key) + delta, Aware(now))
  {
  }

  /** Two awards less than the cooldown apart: the second is rejected. */
  lemma CooldownSpacesAwards(ledger: map<ChatUser, PointsRow>, key: ChatUser, d1: int, d2: int,
                             cooldown: int, t1: int, t2: int)
    requires AwardResult(ledger, key, d1, cooldown, t1).added
    requires cooldown > 0 && t1 <= t2 < t1 + cooldown * Second
    ensures var l1 := LedgerAfterAward(ledger, key, d1, cooldown, t1);
      && AwardResult(l1, key, d2, cooldown, t2) == Award(false, PointsOf(ledger, key) + d1)
      && LedgerAfterAward(l1, key, d2, cooldown, t2) == l1
  {
  }

  // ---------------------------------------------------------------------------------
  // checkin_log

  /** A `(chat_id, user_id, checkin_date)` row; the date is the UTC day number. */
  type CheckinKey = (string, string, int)

  function UtcDay(now: int): int {
    now / Day
  }

  // ---------------------------------------------------------------------------------
  // shop_items

  datatype ShopItem = ShopItem(id: int, name: string, description: string, cost: int, stock: int, isActive: bool)

  /** A stock of -1 means unlimited. */
  const UnlimitedStock := -1

  predicate NameTaken(items: map<int, ShopItem>, name: string) {
    exists id :: id in items && items[id].name == name
  }

  /** `db_redeem_item` on the balance: `points = points - cost` on the user's row, if it has one. */
  function LedgerAfterRedeem(ledger: map<ChatUser, PointsRow>, key: ChatUser, item: ShopItem)
    : (r: map<ChatUser, PointsRow>)
    ensures r.Keys == ledger.Keys
    ensures key in ledger ==> r[key] == ledger[key].(points := ledger[key].points - item.cost)
    ensures forall k :: k in ledger && k != key ==> r[k] == ledger[k]
  {
    if key in ledger then ledger[key := ledger[key].(points := ledger[key].points - item.cost)] else ledger
  }

  /** `db_redeem_item` on the stock: `stock = stock - 1` unless the item says unlimited. */
  function ItemsAfterRedeem(items: map<int, ShopItem>, item: ShopItem): (r: map<int, ShopItem>)
    ensures r.Keys == items.Keys
    ensures forall id :: id in items && id != item.id ==> r[id] == items[id]
    ensures item.stock == UnlimitedStock ==> r == items
    ensures item.stock != UnlimitedStock && item.id in items ==>
      r[item.id] == items[item.id].(stock := items[item.id].stock - 1)
  {
    if item.stock != UnlimitedStock && item.id in items then
      items[item.id := items[item.id].(stock := items[item.id].stock - 1)]
    else items
  }

  /** Redeeming from a positive stock leaves a non-negative one; unlimited stays unlimited. */
  lemma RedeemKeepsStockAboveUnlimited(items: map<int, ShopItem>, id: int)
    requires id in items && (items[id].stock == UnlimitedStock || items[id].stock >= 1)
    ensures var r := ItemsAfterRedeem(items, items[id]);
      r[id].stock >= 0 || r[id].stock == UnlimitedStock
    ensures items[id].stock == UnlimitedStock ==> ItemsAfterRedeem(items, items[id])[id].stock == UnlimitedStock
  {
  }

  // ---------------------------------------------------------------------------------
  // The store

  class Store {
    var messages: seq<Message>
    var knownChats: map<string, KnownChat>
    var userSettings: map<string, UserSettings>
    var groupSettings: map<string, GroupSettings>
    var faqs: seq<FaqRow>
    var nextFaqId: int
    var blacklist: map<string, Stamp>
    var warnings: map<ChatUser, WarningRow>
    var points: map<ChatUser, PointsRow>
    var checkins: set<CheckinKey>
    var shopItems: map<int, ShopItem>
    var nextItemId: int

    ghost predicate Valid()
      reads this
    {
      && nextFaqId >= 1 && nextItemId >= 1
      && FaqsValid(faqs, nextFaqId)
      && (forall id :: id in shopItems ==> shopItems[id].id == id && 1 <= id < nextItemId)
      && (forall a, b :: a in shopItems && b in shopItems && a != b ==> shopItems[a].name != shopItems[b].name)
    }

    /** `_initialize_database` on an empty file: every table empty. */
    constructor ()
      ensures Valid()
      ensures messages == [] && knownChats == map[] && userSettings == map[] && groupSettings == map[]
      ensures faqs == [] && blacklist == map[] && warnings == map[] && points == map[]
      ensures checkins == {} && shopItems == map[]
    {
      messages := [];
      knownChats := map[];
      userSettings := map[];
      groupSettings := map[];
      faqs := [];
      nextFaqId := 1;
      blacklist := map[];
      warnings := map[];
      points := map[];
      checkins := {};
      shopItems := map[];
      nextItemId := 1;
    }

    /** `update_known_chat`. */
    method UpdateKnownChat(chatId: string, title: Option<string>, addedBy: Option<int>, now: int)
      modifies this`knownChats
      ensures knownChats == KnownChatUpsert(old(knownChats), chatId, title, addedBy, now)
    {
      knownChats := KnownChatUpsert(knownChats, chatId, title, addedBy, now);
    }

    /**
     * `save_message`: the chat is upserted into `known_chats` (without an inviter), then the
     * message is appended with missing title/usernames stored as `''`, stamped with local time.
     */
    method SaveMessage(chatId: int, chatTitle: Option<string>, chatUsername: Option<string>, userId: int,
                       userName: string, userUsername: Option<string>, text: string, localNow: int)
      modifies this`knownChats, this`messages
      ensures knownChats == KnownChatUpsert(old(knownChats), IntToString(chatId), chatTitle, None, localNow)
      ensures messages == old(messages) + [Message(IntToString(chatId), chatTitle.GetOr(""), chatUsername.GetOr(""),
                                                   IntToString(userId), userName, userUsername.GetOr(""), localNow, text)]
    {
      UpdateKnownChat(IntToString(chatId), chatTitle, None, localNow);
      messages := messages + [Message(IntToString(chatId), chatTitle.GetOr(""), chatUsername.GetOr(""),
                                      IntToString(userId), userName, userUsername.GetOr(""), localNow, text)];
    }

    /** `db_update_user_setting`. */
    method UpdateUserSetting(userId: string, fs: seq<UserField>)
      modifies this`userSettings
      ensures userSettings == UserSettingsUpsert(old(userSettings), userId, fs)
    {
      userSettings := UserSettingsUpsert(userSettings, userId, fs);
    }

    /** `db_update_group_setting`. */
    method UpdateGroupSetting(chatId: string, fs: seq<GroupField>)
      modifies this`groupSettings
      ensures groupSettings == GroupSettingsUpsert(old(groupSettings), chatId, fs)
    {
      groupSettings := GroupSettingsUpsert(groupSettings, chatId, fs);
    }

    /** `db_add_faq`: the `UNIQUE(chat_id, question)` violation is the `False` result. */
    method AddFaq(chatId: string, question: string, answer: string, keywords: string) returns (ok: bool)
      requires Valid()
      modifies this`faqs, this`nextFaqId
      ensures Valid()
      ensures ok <==> !HasFaq(old(faqs), chatId, question)
      ensures !ok ==> faqs == old(faqs) && nextFaqId == old(nextFaqId)
      ensures ok ==> faqs == old(faqs) + [FaqRow(old(nextFaqId), chatId, question, answer, keywords)]
      ensures ok ==> nextFaqId == old(nextFaqId) + 1
    {
      if exists i :: 0 <= i < |faqs| && faqs[i].chatId == chatId && faqs[i].question == question {
        ok := false;
      } else {
        var row := FaqRow(nextFaqId, chatId, question, answer, keywords);
        FaqsValidSnoc(faqs, nextFaqId, row);
        faqs := faqs + [row];
        nextFaqId := nextFaqId + 1;
        ok := true;
      }
    }

    /** `db_delete_faq`: `rowcount > 0` is whether a row had that id. */
    method DeleteFaq(id: int) returns (deleted: bool)
      requires Valid()
      modifies this`faqs
      ensures Valid()
      ensures deleted <==> exists i :: 0 <= i < |old(faqs)| && old(faqs)[i].id == id
      ensures faqs == FaqsWithoutId(old(faqs), id)
    {
      deleted := exists i :: 0 <= i < |faqs| && faqs[i].id == id;
      FaqsWithoutIdValid(faqs, nextFaqId, id);
      faqs := FaqsWithoutId(faqs, id);
    }

    /** `db_add_to_blacklist`: an upsert of the expiration. */
    method AddToBlacklist(userId: string, expiration: Stamp)
      modifies this`blacklist
      ensures blacklist == old(blacklist)[userId := expiration]
    {
      blacklist := blacklist[userId := expiration];
    }

    /** `db_remove_from_blacklist`: `rowcount > 0` is whether the user had an entry. */
    method RemoveFromBlacklist(userId: string) returns (removed: bool)
      modifies this`blacklist
      ensures removed <==> userId in old(blacklist)
      ensures blacklist == old(blacklist) - {userId}
    {
      removed := userId in blacklist;
      blacklist := blacklist - {userId};
    }

    /** `db_clear_expired_blacklist_entries`: drops the entries whose expiration is before `now`. */
    method ClearExpiredBlacklistEntries(now: int) returns (deleted: nat)
      modifies this`blacklist
      ensures blacklist == map u | u in old(blacklist) && !(old(blacklist)[u].Aware? && old(blacklist)[u].at < now)
        :: old(blacklist)[u]
      ensures deleted == |old(blacklist).Keys| - |blacklist.Keys|
    {
      var kept := map u | u in blacklist && !(blacklist[u].Aware? && blacklist[u].at < now) :: blacklist[u];
      assert kept.Keys <= blacklist.Keys;
      SubsetCardinality(kept.Keys, blacklist.Keys);
      deleted := |blacklist.Keys| - |kept.Keys|;
      blacklist := kept;
    }

    /** `db_update_user_warning`: an upsert of `(warning_count, last_warning_timestamp)`. */
    method UpdateUserWarning(key: ChatUser, count: int, at: Stamp)
      modifies this`warnings
      ensures warnings == old(warnings)[key := WarningRow(count, at)]
    {
      warnings := warnings[key := WarningRow(count, at)];
    }

    /** `db_add_points`: the insert-or-ignore, the cooldown gate, then the update. */
    method AddPoints(key: ChatUser, delta: int, cooldown: int, now: int) returns (award: Award)
      modifies this`points
      ensures award == AwardResult(old(points), key, delta, cooldown, now)
      ensures points == LedgerAfterAward(old(points), key, delta, cooldown, now)
    {
      var row := if key in points then points[key] else FreshPointsRow;
      if cooldown > 0 && row.lastUpdate.Aware? && now - row.lastUpdate.at < cooldown * Second {
        return Award(false, row.points);
      }
      var total := row.points + delta;
      points := points[key := PointsRow(total, Aware(now))];
      award := Award(true, total);
    }

    /** `db_check_if_user_checked_in_today`. */
    function CheckedInToday(key: ChatUser, now: int): bool
      reads this
    {
      (key.0, key.1, UtcDay(now)) in checkins
    }

    /** `db_record_checkin`: a second row for the same day violates the `UNIQUE` constraint. */
    method RecordCheckin(key: ChatUser, now: int) returns (inserted: bool)
      modifies this`checkins
      ensures inserted <==> (key.0, key.1, UtcDay(now)) !in old(checkins)
      ensures checkins == old(checkins) + {(key.0, key.1, UtcDay(now))}
    {
      inserted := (key.0, key.1, UtcDay(now)) !in checkins;
      checkins := checkins + {(key.0, key.1, UtcDay(now))};
    }

    /** `db_get_shop_item_by_id`: whatever its `is_active`. */
    function ShopItemById(id: int): (r: Option<ShopItem>)
      reads this
      ensures r.Some? <==> id in shopItems
      ensures r.Some? ==> r.value == shopItems[id]
    {
      if id in shopItems then Some(shopItems[id]) else None
    }

    /** `db_add_shop_item`: a taken name is the `IntegrityError`, `False`; new items are active. */
    method AddShopItem(name: string, description: string, cost: int, stock: int) returns (ok: bool)
      requires Valid()
      modifies this`shopItems, this`nextItemId
      ensures Valid()
      ensures ok <==> !NameTaken(old(shopItems), name)
      ensures !ok ==> shopItems == old(shopItems) && nextItemId == old(nextItemId)
      ensures ok ==> shopItems == old(shopItems)[old(nextItemId) := ShopItem(old(nextItemId), name, description, cost, stock, true)]
      ensures ok ==> nextItemId == old(nextItemId) + 1
    {
      if exists id :: id in shopItems && shopItems[id].name == name {
        ok := false;
      } else {
        assert forall id :: id in shopItems ==> shopItems[id].name != name;
        shopItems := shopItems[nextItemId := ShopItem(nextItemId, name, description, cost, stock, true)];
        nextItemId := nextItemId + 1;
        ok := true;
      }
    }

    /**
     * `db_redeem_item`, for the item row the caller read: debit the cost, decrement a
     * limited stock. `storageFails` stands for an exception inside the transaction, which
     * rolls both updates back and returns `False`.
     */
    method RedeemItem(key: ChatUser, item: ShopItem, storageFails: bool) returns (ok: bool)
      modifies this`points, this`shopItems
      ensures ok == !storageFails
      ensures storageFails ==> points == old(points) && shopItems == old(shopItems)
      ensures !storageFails ==> points == LedgerAfterRedeem(old(points), key, item)
      ensures !storageFails ==> shopItems == ItemsAfterRedeem(old(shopItems), item)
    {
      if storageFails {
        return false;
      }
      points := LedgerAfterRedeem(points, key, item);
      shopItems := ItemsAfterRedeem(shopItems, item);
      ok := true;
    }
  }

  lemma SubsetCardinality<T>(a: set<T>, b: set<T>)
    requires a <= b
    ensures |a| <= |b|
  {
    assert b == a + (b - a);
  }
}
