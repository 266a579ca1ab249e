/**
 * The moderation handlers: the blacklist gate and the burst detector that run before
 * every message, the keyword/URL filter with its three warning levels, and the rule by
 * which an ordinary chat message earns a point.
 *
 * Each handler either lets the message on to the next handler or stops the chain
 * (`ApplicationHandlerStop`); `stop` is that choice.
 */
module Messages {
  import opened Wrappers
  import opened Text
  import opened Time
  import opened Database
  import opened Memory
  import opened Helpers
  import opened AdBlocker
  import opened UserManager
  import Ranking

  /** `SPAM_MESSAGE_COUNT`: the length of each user's timestamp buffer. */
  const SpamMessageCount: nat := 3

  /** `SPAM_TIME_WINDOW_SECONDS`. */
  const SpamTimeWindow: int := 3 * Second

  /** `BLACKLIST_DURATION_SECONDS`, also the mute of the third spam warning. */
  const BlacklistDuration: int := 3600 * Second

  // ---------------------------------------------------------------------------------
  // The blacklist gate

  /** How the gate reads a user's blacklist entry at `now`. */
  datatype Gate = NoEntry | Active(until: int) | Expired | Unparsable

  /**
   * A stored expiration later than `now` is active, an earlier or equal one expired; one
   * that does not parse (`ValueError`) or is naive (`TypeError`) is unparsable.
   */
  function GateOf(entry: Option<Stamp>, now: int): (g: Gate)
    ensures g.NoEntry? <==> entry.None?
    ensures g.Active? <==> entry.Some? && entry.value.Aware? && entry.value.at > now
    ensures g.Active? ==> g.until == entry.value.at
    ensures g.Expired? <==> entry.Some? && entry.value.Aware? && entry.value.at <= now
    ensures g.Unparsable? <==> entry.Some? && !entry.value.Aware?
  {
    match entry
    case None => NoEntry
    case Some(Aware(t)) => if t > now then Active(t) else Expired
    case Some(_) => Unparsable
  }

  /** The notification keys that do not belong to the user, whatever the chat. */
  function WithoutUser(notified: set<(int, int)>, userId: int): (r: set<(int, int)>)
    ensures forall k :: k in r <==> k in notified && k.1 != userId
  {
    set k | k in notified && k.1 != userId
  }

  // ---------------------------------------------------------------------------------
  // The burst detector

  /** `deque(maxlen=3).append(t)`: the newest three of the buffer followed by `t`. */
  function Push(buffer: seq<int>, t: int): (r: seq<int>)
    ensures |r| <= SpamMessageCount
    ensures |buffer| < SpamMessageCount ==> r == buffer + [t]
  {
    if |buffer| < SpamMessageCount then buffer + [t]
    else buffer[|buffer| - (SpamMessageCount - 1)..] + [t]
  }

  /** `Push` keeps exactly the newest three of the buffer extended by `t`, as the deque does. */
  lemma PushKeepsNewest(buffer: seq<int>, t: int)
    ensures Push(buffer, t) == LastN(buffer + [t], SpamMessageCount)
    ensures Push(buffer, t)[|Push(buffer, t)| - 1] == t
  {
    if |buffer| >= SpamMessageCount {
      assert Push(buffer, t) == (buffer + [t])[|buffer| + 1 - SpamMessageCount..];
    }
  }

  /** A full buffer whose newest and oldest timestamps are less than 3 seconds apart. */
  predicate IsBurst(buffer: seq<int>) {
    |buffer| == SpamMessageCount && buffer[|buffer| - 1] - buffer[0] < SpamTimeWindow
  }

  function BufferOf(timestamps: map<int, seq<int>>, userId: int): seq<int> {
    if userId in timestamps then timestamps[userId] else []
  }

  predicate BuffersBounded(timestamps: map<int, seq<int>>) {
    forall u :: u in timestamps ==> |timestamps[u]| <= SpamMessageCount
  }

  /** A burst needs three messages: from an empty buffer, two never trip it. */
  lemma TwoMessagesNeverBurst(t1: int, t2: int)
    ensures !IsBurst(Push([], t1))
    ensures !IsBurst(Push(Push([], t1), t2))
  {
    assert Push([], t1) == [t1];
    assert Push([t1], t2) == [t1, t2];
  }

  /** Three messages within 3 seconds trip the detector, from any buffer of two or more. */
  lemma ThirdQuickMessageBursts(buffer: seq<int>, t: int)
    requires |buffer| >= SpamMessageCount - 1
    requires t - buffer[|buffer| - (SpamMessageCount - 1)] < SpamTimeWindow
    ensures IsBurst(Push(buffer, t))
  {
    var s := buffer + [t];
    var r := Push(buffer, t);
    assert r == s[|s| - SpamMessageCount..];
    assert r[0] == s[|s| - SpamMessageCount] == buffer[|buffer| - (SpamMessageCount - 1)];
  }

  // ---------------------------------------------------------------------------------
  // spam_check_handler

  /** What the user is told. */
  datatype SpamNotice =
    | NoNotice
    /** "You are muted", with the remaining time, written out by `FormatTimeDelta`. */
    | MutedNotice(remaining: int)
    /** The burst notice: muted for an hour, the bot lacks the right, or a generic limit after an error. */
    | BurstMuted | BurstNeedsRights | BurstLimited
    /** The burst notice of a private chat. */
    | BurstPrivate

  /**
   * The burst notice for the chat; `canRestrict` is `None` when the rights lookup or the
   * restriction itself failed, which gets the generic notice.
   */
  function BurstNotice(chat: Chat, canRestrict: Option<bool>): SpamNotice {
    if !IsGroupChat(Some(chat)) then BurstPrivate
    else match canRestrict
      case Some(true) => BurstMuted
      case Some(false) => BurstNeedsRights
      case None => BurstLimited
  }

  /** The state the handler reads and writes, and its decision. */
  datatype SpamStep = SpamStep(timestamps: map<int, seq<int>>, notified: set<(int, int)>,
                               blacklist: map<string, Stamp>, stop: bool, notice: SpamNotice)

  /** `db_get_blacklist_entry`: the stored expiration of the user, if any. */
  function EntryFor(blacklist: map<string, Stamp>, key: string): Option<Stamp> {
    if key in blacklist then Some(blacklist[key]) else None
  }

  /**
   * A user whose entry is active: the message stops. A private chat is told the remaining
   * time every time, a group only once per (chat, user) key.
   */
  function MutedStep(timestamps: map<int, seq<int>>, notified: set<(int, int)>, blacklist: map<string, Stamp>,
                     chat: Chat, userId: int, remaining: int): SpamStep
  {
    if !IsGroupChat(Some(chat)) then SpamStep(timestamps, notified, blacklist, true, MutedNotice(remaining))
    else if (chat.id, userId) in notified then SpamStep(timestamps, notified, blacklist, true, NoNotice)
    else SpamStep(timestamps, notified + {(chat.id, userId)}, blacklist, true, MutedNotice(remaining))
  }

  /**
   * The message date joins the user's buffer; a burst lists the user for an hour from
   * `now`, empties the buffer and stops the message.
   */
  function RecordStep(timestamps: map<int, seq<int>>, notified: set<(int, int)>, blacklist: map<string, Stamp>,
                      chat: Chat, userId: int, date: int, now: int, canRestrict: Option<bool>): SpamStep
  {
    var buffer := Push(BufferOf(timestamps, userId), date);
    if IsBurst(buffer) then
      SpamStep(timestamps[userId := []], notified, blacklist[IntToString(userId) := Aware(now + BlacklistDuration)],
               true, BurstNotice(chat, canRestrict))
    else SpamStep(timestamps[userId := buffer], notified, blacklist, false, NoNotice)
  }

  /**
   * `spam_check_handler` on the buffers, the notified keys and the `blacklist` table.
   * `date` is the message's date (`None` without a message or date), `now` the aware UTC
   * clock, and `canRestrict` whether the bot may restrict members (`None`: the lookup or the
   * restriction failed).
   * An expired entry is deleted along with every notification key of the user; an entry
   * that cannot be read or compared is deleted alone.
   */
  function SpamCheckStep(timestamps: map<int, seq<int>>, notified: set<(int, int)>, blacklist: map<string, Stamp>,
                         chat: Chat, user: Option<User>, date: Option<int>, now: int, canRestrict: Option<bool>)
    : SpamStep
  {
    if date.None? || user.None? then SpamStep(timestamps, notified, blacklist, false, NoNotice)
    else
      var uid := user.value.id;
      var key := IntToString(uid);
      match GateOf(EntryFor(blacklist, key), now)
      case Active(until) => MutedStep(timestamps, notified, blacklist, chat, uid, until - now)
      case Expired => RecordStep(timestamps, WithoutUser(notified, uid), blacklist - {key}, chat, uid, date.value, now, canRestrict)
      case Unparsable => RecordStep(timestamps, notified, blacklist - {key}, chat, uid, date.value, now, canRestrict)
      case NoEntry => RecordStep(timestamps, notified, blacklist, chat, uid, date.value, now, canRestrict)
  }

  lemma BoundedUpdate(timestamps: map<int, seq<int>>, userId: int, buffer: seq<int>)
    requires BuffersBounded(timestamps) && |buffer| <= SpamMessageCount
    ensures BuffersBounded(timestamps[userId := buffer])
  {
  }

  /**
   * Recording a message leaves the notified keys alone; a burst lists the user until an
   * hour from now, empties their buffer and stops the message; otherwise the message is
   * only recorded.
   */
  lemma RecordStepOutcome(timestamps: map<int, seq<int>>, notified: set<(int, int)>, blacklist: map<string, Stamp>,
                          chat: Chat, userId: int, date: int, now: int, canRestrict: Option<bool>)
    ensures var r := RecordStep(timestamps, notified, blacklist, chat, userId, date, now, canRestrict);
      var buffer := Push(BufferOf(timestamps, userId), date);
      && r.notified == notified
      && (IsBurst(buffer) ==> r.stop && r.timestamps == timestamps[userId := []] && r.notice == BurstNotice(chat, canRestrict)
                              && r.blacklist == blacklist[IntToString(userId) := Aware(now + BlacklistDuration)])
      && (!IsBurst(buffer) ==> !r.stop && r.blacklist == blacklist && r.timestamps == timestamps[userId := buffer])
  {
  }

  /** Recording a message keeps every buffer within three timestamps. */
  lemma RecordStepBounded(timestamps: map<int, seq<int>>, notified: set<(int, int)>, blacklist: map<string, Stamp>,
                          chat: Chat, userId: int, date: int, now: int, canRestrict: Option<bool>)
    requires BuffersBounded(timestamps)
    ensures BuffersBounded(RecordStep(timestamps, notified, blacklist, chat, userId, date, now, canRestrict).timestamps)
  {
    var buffer := Push(BufferOf(timestamps, userId), date);
    BoundedUpdate(timestamps, userId, buffer);
    BoundedUpdate(timestamps, userId, []);
  }

  /** Without a message date or a user the handler does nothing. */
  lemma SpamCheckNeedsUserAndDate(timestamps: map<int, seq<int>>, notified: set<(int, int)>,
                                  blacklist: map<string, Stamp>, chat: Chat, user: Option<User>,
                                  date: Option<int>, now: int, canRestrict: Option<bool>)
    requires date.None? || user.None?
    ensures SpamCheckStep(timestamps, notified, blacklist, chat, user, date, now, canRestrict)
      == SpamStep(timestamps, notified, blacklist, false, NoNotice)
  {
  }

  /**
   * An active entry stops the message and changes neither the buffers nor the blacklist.
   * In a private chat the remaining time is reported every time; in a group only when the
   * (chat, user) key is not yet in the notified set, which it then joins.
   */
  lemma ActiveEntryStops(timestamps: map<int, seq<int>>, notified: set<(int, int)>, blacklist: map<string, Stamp>,
                         chat: Chat, user: User, date: int, now: int, canRestrict: Option<bool>)
    requires IntToString(user.id) in blacklist
    requires blacklist[IntToString(user.id)].Aware? && blacklist[IntToString(user.id)].at > now
    ensures var r := SpamCheckStep(timestamps, notified, blacklist, chat, Some(user), Some(date), now, canRestrict);
      && r.stop && r.timestamps == timestamps && r.blacklist == blacklist
      && (!IsGroupChat(Some(chat)) ==> r.notice == MutedNotice(blacklist[IntToString(user.id)].at - now)
                                       && r.notified == notified)
      && (IsGroupChat(Some(chat)) ==> (r.notice.MutedNotice? <==> (chat.id, user.id) !in notified))
      && (IsGroupChat(Some(chat)) ==> r.notified == notified + {(chat.id, user.id)})
  {
  }

  /** In a group, a muted user is told at most once: the next message gets no notice. */
  lemma GroupNoticeAtMostOnce(timestamps: map<int, seq<int>>, notified: set<(int, int)>, blacklist: map<string, Stamp>,
                              chat: Chat, user: User, d1: int, d2: int, now1: int, now2: int, canRestrict: Option<bool>)
    requires IsGroupChat(Some(chat))
    requires IntToString(user.id) in blacklist
    requires blacklist[IntToString(user.id)].Aware? && blacklist[IntToString(user.id)].at > now2 >= now1
    ensures var r1 := SpamCheckStep(timestamps, notified, blacklist, chat, Some(user), Some(d1), now1, canRestrict);
      var r2 := SpamCheckStep(r1.timestamps, r1.notified, r1.blacklist, chat, Some(user), Some(d2), now2, canRestrict);
      r2.stop && r2.notice == NoNotice
  {
    ActiveEntryStops(timestamps, notified, blacklist, chat, user, d1, now1, canRestrict);
  }

  /**
   * An entry that is not active is deleted before the message is recorded: an expired one
   * together with every notification key of the user, in any chat; one that cannot be read
   * or compared alone. The user stays unlisted unless this very message completes a burst.
   */
  lemma StaleEntryRemoved(timestamps: map<int, seq<int>>, notified: set<(int, int)>, blacklist: map<string, Stamp>,
                          chat: Chat, user: User, date: int, now: int, canRestrict: Option<bool>)
    requires IntToString(user.id) in blacklist
    requires !(blacklist[IntToString(user.id)].Aware? && blacklist[IntToString(user.id)].at > now)
    ensures var r := SpamCheckStep(timestamps, notified, blacklist, chat, Some(user), Some(date), now, canRestrict);
      var key := IntToString(user.id);
      && (!r.stop ==> r.blacklist == blacklist - {key})
      && (r.stop ==> r.blacklist == (blacklist - {key})[key := Aware(now + BlacklistDuration)])
      && (blacklist[key].Aware? ==> r.notified == WithoutUser(notified, user.id))
      && (!blacklist[key].Aware? ==> r.notified == notified)
  {
    var key := IntToString(user.id);
    assert EntryFor(blacklist, key) == Some(blacklist[key]);
    var nf := if blacklist[key].Aware? then WithoutUser(notified, user.id) else notified;
    assert SpamCheckStep(timestamps, notified, blacklist, chat, Some(user), Some(date), now, canRestrict)
      == RecordStep(timestamps, nf, blacklist - {key}, chat, user.id, date, now, canRestrict);
    RecordStepOutcome(timestamps, nf, blacklist - {key}, chat, user.id, date, now, canRestrict);
  }

  /** For a user with no entry, a message is recorded, and a burst lists the user for an hour. */
  lemma BurstBlacklistsForAnHour(timestamps: map<int, seq<int>>, notified: set<(int, int)>, blacklist: map<string, Stamp>,
                                 chat: Chat, user: User, date: int, now: int, canRestrict: Option<bool>)
    requires IntToString(user.id) !in blacklist
    ensures var r := SpamCheckStep(timestamps, notified, blacklist, chat, Some(user), Some(date), now, canRestrict);
      var buffer := Push(BufferOf(timestamps, user.id), date);
      && (IsBurst(buffer) ==> r.stop && r.blacklist == blacklist[IntToString(user.id) := Aware(now + BlacklistDuration)]
                              && r.timestamps == timestamps[user.id := []] && r.notice == BurstNotice(chat, canRestrict))
      && (!IsBurst(buffer) ==> !r.stop && r.blacklist == blacklist && r.timestamps == timestamps[user.id := buffer])
      && r.notified == notified
  {
    RecordStepOutcome(timestamps, notified, blacklist, chat, user.id, date, now, canRestrict);
  }

  /** No buffer ever holds more than three timestamps. */
  lemma SpamCheckKeepsBuffersBounded(timestamps: map<int, seq<int>>, notified: set<(int, int)>,
                                     blacklist: map<string, Stamp>, chat: Chat, user: Option<User>,
                                     date: Option<int>, now: int, canRestrict: Option<bool>)
    requires BuffersBounded(timestamps)
    ensures BuffersBounded(SpamCheckStep(timestamps, notified, blacklist, chat, user, date, now, canRestrict).timestamps)
  {
    if date.Some? && user.Some? {
      var uid := user.value.id;
      var key := IntToString(uid);
      RecordStepBounded(timestamps, WithoutUser(notified, uid), blacklist - {key}, chat, uid, date.value, now, canRestrict);
      RecordStepBounded(timestamps, notified, blacklist - {key}, chat, uid, date.value, now, canRestrict);
      RecordStepBounded(timestamps, notified, blacklist, chat, uid, date.value, now, canRestrict);
    }
  }
  // ---------------------------------------------------------------------------------
  // message_filter_handler

  /** A `https?://` followed by a non-space character at the start of `s`. */
  predicate UrlAt(s: string) {
    (StartsWith(s, "http://") && |s| > 7 && !IsSpace(s[7]))
    || (StartsWith(s, "https://") && |s| > 8 && !IsSpace(s[8]))
  }

  /** `re.search(r'https?://\S+', text)` finds a match. */
  predicate HasUrl(s: string)
    decreases |s|
  {
    UrlAt(s) || (s != [] && HasUrl(s[1..]))
  }

  /** A link anywhere in the text is found. */
  lemma {:induction false} HasUrlAt(s: string, i: nat)
    requires i <= |s| && UrlAt(s[i..])
    ensures HasUrl(s)
    decreases i
  {
    if i > 0 {
      assert s[1..][i - 1..] == s[i..];
      HasUrlAt(s[1..], i - 1);
    }
  }

  lemma HasUrlExamples()
    ensures HasUrl("see https://t.me")
    ensures !UrlAt("http:// x")
  {
    var s := "see https://t.me";
    assert s[4..] == "https://t.me";
    assert StartsWith(s[4..], "https://");
    HasUrlAt(s, 4);
  }

  /** The flag: a blocked keyword or a link. */
  predicate Flagged(keywords: set<string>, text: string) {
    Spam(keywords, text) || HasUrl(text)
  }

  /** The reply of the filter: the warning level's message, or nothing. */
  datatype FilterReply = NoReply | FirstWarning | SecondWarning | FinalWarning

  /** The filter looks only at text in groups whose spam filter is on. */
  predicate FilterApplies(groups: map<string, GroupSettings>, chat: Chat, text: Option<string>) {
    text.Some? && text.value != "" && IsGroupChat(Some(chat)) && IsSpamFilterOn(groups, chat.id)
  }

  /** The warning level's message, and whether it mutes: only from level 3 on, and only with the right. */
  function WarningReply(level: int, canRestrict: Option<bool>): (r: (FilterReply, bool))
    ensures r.1 <==> level != 1 && level != 2 && canRestrict == Some(true)
    ensures level == 1 ==> r.0 == FirstWarning
    ensures level == 2 ==> r.0 == SecondWarning
  {
    if level == 1 then (FirstWarning, false)
    else if level == 2 then (SecondWarning, false)
    else if canRestrict == Some(true) then (FinalWarning, true)
    else (NoReply, false)
  }

  /**
   * Three flagged messages from a clean record, each within 24 hours of the last, reach the
   * third level and mute, when the bot has the right.
   */
  lemma ThirdOffenceMutes(times: seq<int>)
    requires |times| == 3 && CloseTogether(times)
    ensures WarningAfter(None, times).Some?
    ensures WarningReply(WarningAfter(None, times).value.count, Some(true)) == (FinalWarning, true)
    ensures WarningReply(WarningAfter(None, times).value.count, Some(false)) == (NoReply, false)
  {
    EscalationCounts(times);
  }

  class Moderator {
    /** `user_message_timestamps`: each user's last message dates. */
    var timestamps: map<int, seq<int>>
    /** `already_notified_users`: the (chat, user) pairs told of their mute. */
    var notified: set<(int, int)>

    predicate Valid()
      reads this
    {
      BuffersBounded(timestamps)
    }

    constructor ()
      ensures Valid() && timestamps == map[] && notified == {}
    {
      timestamps := map[];
      notified := {};
    }

    /** `spam_check_handler`. */
    method SpamCheck(db: Store, chat: Chat, user: Option<User>, date: Option<int>, now: int, canRestrict: Option<bool>)
      returns (stop: bool, notice: SpamNotice)
      requires Valid()
      modifies this, db`blacklist
      ensures Valid()
      ensures var r := SpamCheckStep(old(timestamps), old(notified), old(db.blacklist), chat, user, date, now, canRestrict);
        && timestamps == r.timestamps && notified == r.notified && db.blacklist == r.blacklist
        && stop == r.stop && notice == r.notice
    {
      SpamCheckKeepsBuffersBounded(timestamps, notified, db.blacklist, chat, user, date, now, canRestrict);
      if date.None? || user.None? {
        return false, NoNotice;
      }
      var uid := user.value.id;
      var key := IntToString(uid);
      if key in db.blacklist {
        var entry := db.blacklist[key];
        if entry.Aware? && entry.at > now {
          notice := MutedNotice(entry.at - now);
          if IsGroupChat(Some(chat)) {
            if (chat.id, uid) !in notified {
              notified := notified + {(chat.id, uid)};
            } else {
              notice := NoNotice;
            }
          }
          return true, notice;
        }
        var _ := db.RemoveFromBlacklist(key);
        if entry.Aware? {
          RemoveUserNotifications(uid);
        }
      }
      stop, notice := RecordMessage(db, chat, uid, date.value, now, canRestrict);
    }

    /** The loop over `already_notified_users` that drops every key of the user, in any chat. */
    method RemoveUserNotifications(userId: int)
      modifies this`notified
      ensures notified == WithoutUser(old(notified), userId)
    {
      var pending := notified;
      ghost var start := notified;
      while pending != {}
        invariant pending <= start
        invariant forall k :: k in notified <==> k in start && (k.1 != userId || k in pending)
        decreases |pending|
      {
        var k :| k in pending;
        if k.1 == userId {
          notified := notified - {k};
        }
        pending := pending - {k};
      }
    }

    /** The message date joins the user's buffer; a full buffer spanning under 3 seconds is a burst. */
    method RecordMessage(db: Store, chat: Chat, userId: int, date: int, now: int, canRestrict: Option<bool>)
      returns (stop: bool, notice: SpamNotice)
      requires Valid()
      modifies this`timestamps, db`blacklist
      ensures Valid()
      ensures var r := RecordStep(old(timestamps), notified, old(db.blacklist), chat, userId, date, now, canRestrict);
        && timestamps == r.timestamps && db.blacklist == r.blacklist && stop == r.stop && notice == r.notice
    {
      RecordStepOutcome(timestamps, notified, db.blacklist, chat, userId, date, now, canRestrict);
      RecordStepBounded(timestamps, notified, db.blacklist, chat, userId, date, now, canRestrict);
      var buffer := if userId in timestamps then timestamps[userId] else [];
      buffer := Push(buffer, date);
      if |buffer| == SpamMessageCount && buffer[|buffer| - 1] - buffer[0] < SpamTimeWindow {
        db.AddToBlacklist(IntToString(userId), Aware(now + BlacklistDuration));
        timestamps := timestamps[userId := []];
        return true, BurstNotice(chat, canRestrict);
      }
      timestamps := timestamps[userId := buffer];
      return false, NoNotice;
    }
  }

  /**
   * `message_filter_handler`. `chatAdmins` is the administrator list (`None` when it cannot
   * be fetched), `deleteFails` a failed deletion, and `canRestrict` whether the bot may
   * restrict members (`None`: the lookup or the restriction failed).
   */
  method MessageFilter(db: Store, blocker: Blocker, admins: AdminCache, chat: Chat, user: User, text: Option<string>,
                       chatAdmins: Option<set<int>>, deleteFails: bool, canRestrict: Option<bool>, now: int)
    returns (stop: bool, reply: FilterReply)
    modifies db`warnings, db`blacklist, admins
    ensures var isAdmin := AdminAnswer(old(admins.cached), Some(chat), Some(user), chatAdmins);
      stop <==> FilterApplies(old(db.groupSettings), chat, text) && !isAdmin && Flagged(blocker.keywords, text.value)
    ensures FilterApplies(old(db.groupSettings), chat, text) ==>
      admins.cached == (if AdminAnswer(old(admins.cached), Some(chat), Some(user), chatAdmins)
                        then old(admins.cached) + {(chat.id, user.id)} else old(admins.cached))
    ensures !FilterApplies(old(db.groupSettings), chat, text) ==> admins.cached == old(admins.cached)
    ensures !stop || deleteFails ==> db.warnings == old(db.warnings) && db.blacklist == old(db.blacklist) && reply == NoReply
    ensures stop && !deleteFails ==>
      var key := (IntToString(chat.id), IntToString(user.id));
      var level := NextWarningCount(WarningRowOf(old(db.warnings), key), now);
      var (expected, mutes) := WarningReply(level, canRestrict);
      && db.warnings == old(db.warnings)[key := WarningRow(level, Aware(now))]
      && reply == expected
      && db.blacklist == (if mutes then old(db.blacklist)[IntToString(user.id) := Aware(now + BlacklistDuration)]
                         else old(db.blacklist))
  {
    if text.None? || text.value == "" || !IsGroupChat(Some(chat)) {
      return false, NoReply;
    }
    if !IsSpamFilterOn(db.groupSettings, chat.id) {
      return false, NoReply;
    }
    var isAdmin := admins.IsAdmin(Some(chat), Some(user), chatAdmins);
    if isAdmin {
      return false, NoReply;
    }
    var spam := blocker.IsSpam(text.value);
    if !(spam || HasUrl(text.value)) {
      return false, NoReply;
    }
    if deleteFails {
      return true, NoReply;
    }
    var level := RecordAndGetWarningLevel(db, (IntToString(chat.id), IntToString(user.id)), now);
    if level == 1 {
      reply := FirstWarning;
    } else if level == 2 {
      reply := SecondWarning;
    } else if canRestrict == Some(true) {
      db.AddToBlacklist(IntToString(user.id), Aware(now + BlacklistDuration));
      reply := FinalWarning;
    } else {
      reply := NoReply;
    }
    stop := true;
  }

  /** Admins are never filtered, and neither are private chats nor groups with the filter off. */
  lemma FilterScope(groups: map<string, GroupSettings>, chat: Chat, text: string)
    ensures chat.kind == Private || chat.kind == Channel ==> !FilterApplies(groups, chat, Some(text))
    ensures IntToString(chat.id) in groups && !groups[IntToString(chat.id)].spamFilterEnabled ==>
      !FilterApplies(groups, chat, Some(text))
    ensures IntToString(chat.id) !in groups && IsGroupChat(Some(chat)) && text != "" ==>
      FilterApplies(groups, chat, Some(text))
  {
  }

  // ---------------------------------------------------------------------------------
  // chat_handler up to the point for a message

  /** The exact texts `chat_handler` answers as commands: check-in, points, the shop and the six rankings. */
  const CommandKeywords: seq<string> := ["签到", "积分", "奖品", "商店",
    "本群今日发言", "本群本周发言", "本群本月发言", "全服今日发言", "全服本周发言", "全服本月发言"]

  /** `SEARCH_KEYWORDS`, in the order they are tried. */
  const SearchKeywords: seq<string> := ["搜索", "搜", "search"]

  /** What follows keyword `k` in the text, stripped. */
  function Remainder(stripped: string, k: string): string {
    if |k| <= |stripped| then Strip(stripped[|k|..]) else []
  }

  /** The lowercased text starts with `k` and leaves a non-blank query. */
  predicate Searches(stripped: string, k: string) {
    StartsWith(ToLower(stripped), k) && Remainder(stripped, k) != []
  }

  /**
   * The query of the first keyword the lowercased text starts with and that leaves a
   * non-blank remainder; later keywords are tried when one leaves nothing.
   */
  function SearchQuery(stripped: string, keywords: seq<string>): Option<string> {
    if keywords == [] then None
    else if Searches(stripped, keywords[0]) then Some(Remainder(stripped, keywords[0]))
    else SearchQuery(stripped, keywords[1..])
  }

  /** Keyword `i` is the first that searches. */
  predicate FirstSearching(stripped: string, keywords: seq<string>, i: int) {
    0 <= i < |keywords| && Searches(stripped, keywords[i]) && forall j :: 0 <= j < i ==> !Searches(stripped, keywords[j])
  }

  /** The query comes from the first keyword that searches, and there is none when no keyword does. */
  lemma {:induction false} SearchQueryFirstMatch(stripped: string, keywords: seq<string>)
    ensures var q := SearchQuery(stripped, keywords);
      && (q.Some? ==> exists i :: FirstSearching(stripped, keywords, i) && q.value == Remainder(stripped, keywords[i]))
      && (q.None? <==> forall i :: 0 <= i < |keywords| ==> !Searches(stripped, keywords[i]))
  {
    if keywords != [] {
      var q := SearchQuery(stripped, keywords);
      if Searches(stripped, keywords[0]) {
        assert FirstSearching(stripped, keywords, 0);
      } else {
        var rest := keywords[1..];
        SearchQueryFirstMatch(stripped, rest);
        assert forall i :: 1 <= i < |keywords| ==> keywords[i] == rest[i - 1];
        if q.Some? {
          var i :| FirstSearching(stripped, rest, i) && q.value == Remainder(stripped, rest[i]);
          assert keywords[i + 1] == rest[i];
          forall j | 0 <= j < i + 1
            ensures !Searches(stripped, keywords[j])
          {
            if j > 0 {
              assert keywords[j] == rest[j - 1];
            }
          }
          assert FirstSearching(stripped, keywords, i + 1);
        }
      }
    }
  }

  /** Where `chat_handler` sends a message before the conversation logic. */
  datatype Route =
    | NoText
    /** The private follow-up of `/search` without a query: the whole text is the query. */
    | PendingSearch
    | KeywordCommand(keyword: string)
    | Search(query: string)
    /** On to the points rule and the conversation. */
    | Conversation

  function Dispatch(chat: Chat, text: Option<string>, nextIsSearch: bool): (r: Route)
    ensures r.NoText? <==> text.None? || text.value == []
    ensures r.KeywordCommand? ==> r.keyword == Strip(text.value) && r.keyword in CommandKeywords
    ensures r.Conversation? ==> Strip(text.value) !in CommandKeywords
  {
    if text.None? || text.value == [] then NoText
    else if chat.kind == Private && nextIsSearch then PendingSearch
    else
      var stripped := Strip(text.value);
      if stripped in CommandKeywords then KeywordCommand(stripped)
      else
        match SearchQuery(stripped, SearchKeywords)
        case Some(q) => Search(q)
        case None => Conversation
  }

  /** The points rule: more than five characters after stripping, a sender, not a private chat. */
  predicate EarnsPoint(chat: Chat, user: Option<User>, stripped: string) {
    |stripped| > 5 && user.Some? && chat.kind != Private
  }

  /**
   * `chat_handler` up to the points award. Every message that is not the private search
   * follow-up is saved (stripped) first; `senderName` and `senderUsername` are what is
   * stored for the sender, the chat's own title when there is none; `localNow` is the local
   * clock the message is stamped with, `now` the UTC clock of the points table.
   */
  method ChatHandler(db: Store, chat: Chat, chatTitle: Option<string>, chatUsername: Option<string>, user: Option<User>,
                     senderName: string, senderUsername: Option<string>, text: Option<string>, nextIsSearch: bool,
                     localNow: int, now: int)
    returns (route: Route, award: Option<Award>)
    modifies db`points, db`knownChats, db`messages
    ensures route == Dispatch(chat, text, nextIsSearch)
    ensures award.Some? <==> route == Conversation && EarnsPoint(chat, user, Strip(text.value))
    ensures award.None? ==> db.points == old(db.points)
    ensures award.Some? ==>
      var key := (IntToString(chat.id), IntToString(user.value.id));
      && award.value == AwardResult(old(db.points), key, 1, 1, now)
      && db.points == LedgerAfterAward(old(db.points), key, 1, 1, now)
    ensures route.NoText? || route.PendingSearch? ==> db.messages == old(db.messages) && db.knownChats == old(db.knownChats)
    ensures !(route.NoText? || route.PendingSearch?) ==>
      && db.knownChats == KnownChatUpsert(old(db.knownChats), IntToString(chat.id),
                                          if chat.kind == Private then Some("Private Chat") else chatTitle, None, localNow)
      && db.messages == old(db.messages) + [Ranking.Message(IntToString(chat.id),
           if chat.kind == Private then "Private Chat" else chatTitle.GetOr(""), chatUsername.GetOr(""),
           IntToString(if user.Some? then user.value.id else chat.id), senderName, senderUsername.GetOr(""),
           localNow, Strip(text.value))]
  {
    if text.None? || text.value == "" {
      return NoText, None;
    }
    if chat.kind == Private && nextIsSearch {
      return PendingSearch, None;
    }
    var stripped := Strip(text.value);
    db.SaveMessage(chat.id, if chat.kind == Private then Some("Private Chat") else chatTitle, chatUsername,
                   if user.Some? then user.value.id else chat.id, senderName, senderUsername, stripped, localNow);
    if stripped in CommandKeywords {
      return KeywordCommand(stripped), None;
    }
    var query := FirstSearchQuery(stripped);
    if query.Some? {
      return Search(query.value), None;
    }
    route := Conversation;
    award := None;
    if |stripped| > 5 && user.Some? && chat.kind != Private {
      var a := db.AddPoints((IntToString(chat.id), IntToString(user.value.id)), 1, 1, now);
      award := Some(a);
    }
  }

  /** The loop over `SEARCH_KEYWORDS`. */
  method FirstSearchQuery(stripped: string) returns (query: Option<string>)
    ensures query == SearchQuery(stripped, SearchKeywords)
  {
    var i := 0;
    while i < |SearchKeywords|
      invariant 0 <= i <= |SearchKeywords|
      invariant SearchQuery(stripped, SearchKeywords[i..]) == SearchQuery(stripped, SearchKeywords)
    {
      var keyword := SearchKeywords[i];
      if StartsWith(ToLower(stripped), keyword) {
        var q := Strip(stripped[|keyword|..]);
        if q != "" {
          return Some(q);
        }
      }
      assert SearchKeywords[i..][1..] == SearchKeywords[i + 1..];
      i := i + 1;
    }
    return None;
  }

  /**
   * The bare keyword `搜索` is not a search for nothing: `搜索` leaves an empty query, so the
   * shorter keyword `搜` is tried next and searches for `索`.
   */
  lemma BareSearchKeywordSearchesRemainder(chat: Chat)
    requires chat.kind != Private
    ensures Dispatch(chat, Some("搜索"), false) == Search("索")
  {
    StripOfSpaceFree("搜索");
    BareSearchQuery("搜索", SearchKeywords);
    assert "搜索" !in CommandKeywords;
  }

  lemma BareSearchQuery(s: string, keywords: seq<string>)
    requires s == "搜索" && keywords == SearchKeywords
    ensures SearchQuery(s, keywords) == Some("索")
  {
    assert ToLower(s) == s by {
      assert ToLower(s)[0] == LowerChar(s[0]) == s[0];
      assert ToLower(s)[1] == LowerChar(s[1]) == s[1];
    }
    assert s[..2] == keywords[0] && s[2..] == [];
    assert !Searches(s, keywords[0]);
    assert s[..1] == keywords[1] && s[1..] == "索";
    StripOfSpaceFree("索");
    assert Searches(s, keywords[1]);
    assert keywords[1..][0] == keywords[1];
  }

  /** Two qualifying messages less than a second apart earn one point, not two. */
  lemma QuickMessagesEarnOnce(ledger: map<ChatUser, PointsRow>, key: ChatUser, t1: int, t2: int)
    requires t1 <= t2 < t1 + Second
    ensures var l1 := LedgerAfterAward(ledger, key, 1, 1, t1);
      PointsOf(LedgerAfterAward(l1, key, 1, 1, t2), key) <= PointsOf(ledger, key) + 1
  {
    var l1 := LedgerAfterAward(ledger, key, 1, 1, t1);
    if AwardResult(ledger, key, 1, 1, t1).added {
      CooldownSpacesAwards(ledger, key, 1, 1, 1, t1, t2);
    }
  }
}
