/**
 * The statistics queries over the `messages` log: per-chat and global user ranking,
 * top users, top groups and top topics, with the exclusion rules the queries apply.
 *
 * Each SQL `GROUP BY` becomes a `Column`: the grouping key of every qualifying row, in log
 * order. `ColumnCounts` proves that the count of a key in the column is the number of
 * qualifying rows carrying it, which is what `COUNT(*)` reports.
 */
module Ranking {
  import opened Wrappers
  import opened Text
  import opened Tally
  import opened Time
  import opened Periods

  /** One row of the `messages` table; ids are the text the bot stores (`str(id)`). */
  datatype Message = Message(
    chatId: string, chatTitle: string, chatUsername: string,
    userId: string, userName: string, userUsername: string,
    timestamp: int, text: string)

  /** Supergroups and channels have ids of the form `-100…`. */
  const GroupPrefix: string := "-100"

  /** `USER_RANKING_BLACKLIST`: the Telegram service account. */
  const StaticRankingBlacklist: set<string> := {"777000"}

  predicate IsGroupId(id: string) {
    StartsWith(id, GroupPrefix)
  }

  /** `_get_exclusion_list`: the static blacklist together with every opted-out user. */
  function ExclusionList(optOuts: set<string>): (r: set<string>)
    ensures StaticRankingBlacklist <= r && optOuts <= r
    ensures forall u :: u in r ==> u in StaticRankingBlacklist || u in optOuts
  {
    StaticRankingBlacklist + optOuts
  }

  /** The `WHERE` clause of the user queries: an optional chat, an optional window start, exclusions. */
  datatype Scope = Scope(chat: Option<string>, since: Option<int>, excluded: set<string>)

  /** What a query groups by, and which rows it admits. */
  datatype Grouping =
    | Senders(scope: Scope)       // user rankings: key `user_id`
    | AllSenders                  // `SELECT COUNT(*) FROM messages WHERE user_id = ?`
    | Groups(since: int)          // group ranking: key `chat_id`, only `-100…` chats
    | Texts(scope: Scope)         // topic candidates: key `text`

  predicate InScope(m: Message, s: Scope) {
    && (s.chat.None? || m.chatId == s.chat.value)
    && (s.since.None? || s.since.value <= m.timestamp)
    && !IsGroupId(m.userId)
    && m.userId !in s.excluded
  }

  predicate Qualifies(m: Message, g: Grouping) {
    match g
    case Senders(s) => InScope(m, s)
    case AllSenders => true
    case Groups(since) => since <= m.timestamp && IsGroupId(m.chatId)
    case Texts(s) => InScope(m, s)
  }

  function KeyOf(m: Message, g: Grouping): string {
    match g
    case Senders(_) => m.userId
    case AllSenders => m.userId
    case Groups(_) => m.chatId
    case Texts(_) => m.text
  }

  /** The grouping key of every qualifying row, in log order. */
  function Column(msgs: seq<Message>, g: Grouping): (r: seq<string>)
    ensures |r| <= |msgs|
  {
    if msgs == [] then []
    else
      var last := msgs[|msgs| - 1];
      var prefix := Column(msgs[..|msgs| - 1], g);
      if Qualifies(last, g) then prefix + [KeyOf(last, g)] else prefix
  }

  /** The positions of the rows a query counts for key `k`. */
  ghost function Rows(msgs: seq<Message>, g: Grouping, k: string): set<int> {
    set i | 0 <= i < |msgs| && Qualifies(msgs[i], g) && KeyOf(msgs[i], g) == k
  }

  /** `COUNT(*)` per group: the count of `k` in the column is the number of qualifying rows with key `k`. */
  lemma {:induction false} ColumnCounts(msgs: seq<Message>, g: Grouping, k: string)
    ensures multiset(Column(msgs, g))[k] == |Rows(msgs, g, k)|
  {
    if msgs != [] {
      var n := |msgs| - 1;
      var prefix := msgs[..n];
      ColumnCounts(prefix, g, k);
      RowsOfPrefix(msgs, g, k);
    }
  }

  lemma RowsOfPrefix(msgs: seq<Message>, g: Grouping, k: string)
    requires msgs != []
    ensures var n := |msgs| - 1;
      Rows(msgs, g, k) == Rows(msgs[..n], g, k) + (if Qualifies(msgs[n], g) && KeyOf(msgs[n], g) == k then {n} else {})
  {
    var n := |msgs| - 1;
    var prefix := msgs[..n];
    forall i | 0 <= i < n ensures msgs[i] == prefix[i] { }
  }

  /** Every key in the column comes from a qualifying row, and every qualifying row's key is in it. */
  lemma ColumnMembers(msgs: seq<Message>, g: Grouping, k: string)
    ensures k in Column(msgs, g) <==> exists i :: 0 <= i < |msgs| && Qualifies(msgs[i], g) && KeyOf(msgs[i], g) == k
  {
    ColumnCounts(msgs, g, k);
    if k in Column(msgs, g) {
      assert k in multiset(Column(msgs, g));
      var i :| i in Rows(msgs, g, k);
    } else {
      assert Rows(msgs, g, k) == {};
    }
  }

  /** Every key of a `Senders` column is an ordinary, non-excluded user. */
  lemma SendersAreEligible(msgs: seq<Message>, s: Scope, k: string)
    requires k in Column(msgs, Senders(s))
    ensures !IsGroupId(k) && k !in s.excluded
  {
    ColumnMembers(msgs, Senders(s), k);
  }

  /** The scope of the per-chat queries. */
  function ChatScope(chatId: string, start: int, optOuts: set<string>): Scope {
    Scope(Some(chatId), Some(start), ExclusionList(optOuts))
  }

  /**
   * `get_user_rank_in_chat`: the user's competition rank and message count in the chat
   * since the start of the period, or `(0, 0)` when the period is unknown or the user has
   * no counted message.
   */
  function UserRankInChat(msgs: seq<Message>, optOuts: set<string>, userId: string, chatId: string,
                          period: string, now: LocalDateTime): (r: (nat, nat))
    ensures StartTime(period, now).None? ==> r == (0, 0)
    ensures r.0 == 0 <==> r.1 == 0
    ensures IsGroupId(userId) || userId in ExclusionList(optOuts) ==> r == (0, 0)
  {
    match StartTime(period, now)
    case None => (0, 0)
    case Some(start) =>
      var ids := Column(msgs, Senders(ChatScope(chatId, start, optOuts)));
      if userId in ids then
        SendersAreEligible(msgs, ChatScope(chatId, start, optOuts), userId);
        assert userId in multiset(ids);
        (RankOf(ids, userId), multiset(ids)[userId])
      else (0, 0)
  }

  /** The count reported is the number of the user's messages the query admits. */
  lemma UserRankInChatCount(msgs: seq<Message>, optOuts: set<string>, userId: string, chatId: string,
                            period: string, now: LocalDateTime)
    requires StartTime(period, now).Some?
    ensures UserRankInChat(msgs, optOuts, userId, chatId, period, now).1
      == |Rows(msgs, Senders(ChatScope(chatId, StartTime(period, now).value, optOuts)), userId)|
  {
    var g := Senders(ChatScope(chatId, StartTime(period, now).value, optOuts));
    ColumnCounts(msgs, g, userId);
    if userId !in Column(msgs, g) {
      assert multiset(Column(msgs, g))[userId] == 0;
    }
  }

  /** Competition ranking in a chat: equal counts share a rank, a higher count ranks strictly better. */
  lemma ChatRankIsCompetitionRank(msgs: seq<Message>, optOuts: set<string>, u: string, v: string,
                                  chatId: string, period: string, now: LocalDateTime)
    requires UserRankInChat(msgs, optOuts, u, chatId, period, now).0 > 0
    requires UserRankInChat(msgs, optOuts, v, chatId, period, now).0 > 0
    ensures var ru := UserRankInChat(msgs, optOuts, u, chatId, period, now);
      var rv := UserRankInChat(msgs, optOuts, v, chatId, period, now);
      && (ru.1 == rv.1 ==> ru.0 == rv.0)
      && (ru.1 > rv.1 ==> ru.0 < rv.0)
  {
    var ids := Column(msgs, Senders(ChatScope(chatId, StartTime(period, now).value, optOuts)));
    if multiset(ids)[u] == multiset(ids)[v] {
      RankTies(ids, u, v);
    } else if multiset(ids)[u] > multiset(ids)[v] {
      RankStrictlyBetter(ids, u, v);
    }
  }

  /**
   * `get_user_global_stats`: the queried user's own id is taken out of the exclusions, so
   * an opted-out user is still ranked; the count is the user's unfiltered total.
   */
  function UserGlobalStats(msgs: seq<Message>, optOuts: set<string>, userId: string): (r: (nat, nat))
    ensures r.0 > 0 <==> !IsGroupId(userId) && r.1 > 0
  {
    var g := Senders(Scope(None, None, ExclusionList(optOuts) - {userId}));
    var ids := Column(msgs, g);
    var all := Column(msgs, AllSenders);
    GlobalRankedIffSent(msgs, optOuts, userId);
    (if userId in ids then RankOf(ids, userId) else 0, multiset(all)[userId])
  }

  lemma GlobalRankedIffSent(msgs: seq<Message>, optOuts: set<string>, userId: string)
    ensures var ids := Column(msgs, Senders(Scope(None, None, ExclusionList(optOuts) - {userId})));
      userId in ids <==> !IsGroupId(userId) && multiset(Column(msgs, AllSenders))[userId] > 0
  {
    var g := Senders(Scope(None, None, ExclusionList(optOuts) - {userId}));
    ColumnMembers(msgs, g, userId);
    ColumnMembers(msgs, AllSenders, userId);
    assert userId in Column(msgs, AllSenders) <==> userId in multiset(Column(msgs, AllSenders));
  }

  /** The total is every message the user ever sent, whatever the exclusions. */
  lemma UserGlobalTotal(msgs: seq<Message>, optOuts: set<string>, userId: string)
    ensures UserGlobalStats(msgs, optOuts, userId).1 == |set i | 0 <= i < |msgs| && msgs[i].userId == userId|
  {
    ColumnCounts(msgs, AllSenders, userId);
    assert Rows(msgs, AllSenders, userId) == set i | 0 <= i < |msgs| && msgs[i].userId == userId;
  }

  /** An opted-out user who has written is ranked globally all the same. */
  lemma OptedOutStillRankedGlobally(msgs: seq<Message>, optOuts: set<string>, userId: string, i: nat)
    requires userId in optOuts && !IsGroupId(userId)
    requires i < |msgs| && msgs[i].userId == userId
    ensures UserGlobalStats(msgs, optOuts, userId).0 >= 1
  {
    ColumnMembers(msgs, AllSenders, userId);
    assert userId in multiset(Column(msgs, AllSenders));
  }

  /** The newest qualifying row with key `k`; its timestamp is the inner query's `MAX(timestamp)`. */
  function Newest(msgs: seq<Message>, g: Grouping, k: string): (r: Option<Message>)
    ensures r.Some? ==> r.value in msgs && Qualifies(r.value, g) && KeyOf(r.value, g) == k
  {
    if msgs == [] then None
    else
      var last := msgs[|msgs| - 1];
      var prev := Newest(msgs[..|msgs| - 1], g, k);
      if Qualifies(last, g) && KeyOf(last, g) == k && (prev.None? || prev.value.timestamp <= last.timestamp) then
        Some(last)
      else prev
  }

  /** `Newest` finds a row exactly when one exists, and no admitted row of that key is later. */
  lemma {:induction false} NewestIsLatest(msgs: seq<Message>, g: Grouping, k: string)
    ensures Newest(msgs, g, k).None? <==> Rows(msgs, g, k) == {}
    ensures forall i :: i in Rows(msgs, g, k) ==> msgs[i].timestamp <= Newest(msgs, g, k).value.timestamp
  {
    if msgs != [] {
      var n := |msgs| - 1;
      NewestIsLatest(msgs[..n], g, k);
      RowsOfPrefix(msgs, g, k);
      forall i | i in Rows(msgs[..n], g, k) ensures msgs[i] == msgs[..n][i] { }
    }
  }

  /** Every key of the column has a newest row. */
  lemma ColumnKeyHasNewest(msgs: seq<Message>, g: Grouping, k: string)
    requires k in Column(msgs, g)
    ensures Newest(msgs, g, k).Some?
  {
    ColumnMembers(msgs, g, k);
    NewestIsLatest(msgs, g, k);
    var i :| 0 <= i < |msgs| && Qualifies(msgs[i], g) && KeyOf(msgs[i], g) == k;
    assert i in Rows(msgs, g, k);
  }

  /** Every key on a query's leaderboard has a newest row. */
  lemma BoardKeysHaveNewest(msgs: seq<Message>, g: Grouping, j: nat)
    requires j < |Leaderboard(Column(msgs, g))|
    ensures Newest(msgs, g, Leaderboard(Column(msgs, g))[j].key).Some?
  {
    var col := Column(msgs, g);
    var board := Leaderboard(col);
    LeaderboardSpec(col);
    assert board[j].key in col;
    ColumnKeyHasNewest(msgs, g, board[j].key);
  }

  /**
   * One row of `T1 INNER JOIN T2`: the grouped entry it joins to (`place` on the
   * leaderboard, key and `msg_count`) and the `T1` message that matched it.
   */
  datatype JoinRow = JoinRow(place: nat, entry: Entry<string>, row: Message)

  /**
   * The `T1` side of the join for one entry: every message of the whole table whose key
   * column is `k` and whose timestamp is `ts`, in log order. `T1` itself is not filtered,
   * so these may come from another chat, and rows that tie at `ts` all match.
   */
  function Matches(msgs: seq<Message>, g: Grouping, k: string, ts: int): (r: seq<Message>)
    ensures forall m :: m in r <==> m in msgs && KeyOf(m, g) == k && m.timestamp == ts
    ensures forall m :: KeyOf(m, g) == k && m.timestamp == ts ==> multiset(r)[m] == multiset(msgs)[m]
  {
    Filter(msgs, (m: Message) => KeyOf(m, g) == k && m.timestamp == ts)
  }

  /** The matched messages, each tagged with the entry at `place`. */
  function Tag(rows: seq<Message>, place: nat, e: Entry<string>): (r: seq<JoinRow>)
    ensures |r| == |rows|
    ensures forall i :: 0 <= i < |rows| ==> r[i] == JoinRow(place, e, rows[i])
  {
    if rows == [] then [] else Tag(rows[..|rows| - 1], place, e) + [JoinRow(place, e, rows[|rows| - 1])]
  }

  /** Tagging keeps every message's multiplicity. */
  lemma {:induction false} TagCount(rows: seq<Message>, place: nat, e: Entry<string>, m: Message)
    ensures multiset(Tag(rows, place, e))[JoinRow(place, e, m)] == multiset(rows)[m]
  {
    if rows != [] {
      var n := |rows| - 1;
      TagCount(rows[..n], place, e, m);
      assert rows == rows[..n] + [rows[n]];
    }
  }

  /** The joined rows for the entry at `place`: its matches at the group's `MAX(timestamp)`. */
  function Block(msgs: seq<Message>, g: Grouping, board: seq<Entry<string>>, place: nat): seq<JoinRow>
    requires place < |board|
  {
    match Newest(msgs, g, board[place].key)
    case None => []
    case Some(m) => Tag(Matches(msgs, g, board[place].key, m.timestamp), place, board[place])
  }

  /**
   * `T1 INNER JOIN T2 ... ORDER BY T2.msg_count DESC` over the entries from `place` on:
   * each entry's joined rows, entry after entry in leaderboard order.
   */
  function JoinFrom(msgs: seq<Message>, g: Grouping, board: seq<Entry<string>>, place: nat): seq<JoinRow>
    requires place <= |board|
    decreases |board| - place
  {
    if place == |board| then [] else Block(msgs, g, board, place) + JoinFrom(msgs, g, board, place + 1)
  }

  /** The whole joined result of a grouped query, before `LIMIT`. */
  function Join(msgs: seq<Message>, g: Grouping): seq<JoinRow> {
    JoinFrom(msgs, g, Leaderboard(Column(msgs, g)), 0)
  }

  /** Every entry of `board` names a key with a newest row, as every leaderboard entry does. */
  predicate AllHaveNewest(msgs: seq<Message>, g: Grouping, board: seq<Entry<string>>) {
    forall j :: 0 <= j < |board| ==> Newest(msgs, g, board[j].key).Some?
  }

  lemma LeaderboardHasNewest(msgs: seq<Message>, g: Grouping)
    ensures AllHaveNewest(msgs, g, Leaderboard(Column(msgs, g)))
  {
    forall j | 0 <= j < |Leaderboard(Column(msgs, g))| ensures Newest(msgs, g, Leaderboard(Column(msgs, g))[j].key).Some? {
      BoardKeysHaveNewest(msgs, g, j);
    }
  }

  /** A joined row as the join produces it: from the entry at its place, of that key, at that key's latest time. */
  predicate JoinedAt(msgs: seq<Message>, g: Grouping, board: seq<Entry<string>>, x: JoinRow) {
    && x.place < |board| && x.entry == board[x.place]
    && KeyOf(x.row, g) == x.entry.key && x.row in msgs
    && Newest(msgs, g, x.entry.key).Some?
    && x.row.timestamp == Newest(msgs, g, x.entry.key).value.timestamp
  }

  /** Some joined row comes from the entry at place `j`. */
  predicate Covered(r: seq<JoinRow>, j: nat) {
    exists p :: 0 <= p < |r| && r[p].place == j
  }

  /** Every row of `r` is joined at an entry at or after `place`, as `JoinedAt` describes. */
  predicate AllJoinedFrom(msgs: seq<Message>, g: Grouping, board: seq<Entry<string>>, r: seq<JoinRow>, place: nat) {
    forall p :: 0 <= p < |r| ==> place <= r[p].place && JoinedAt(msgs, g, board, r[p])
  }

  lemma AllJoinedFromConcat(msgs: seq<Message>, g: Grouping, board: seq<Entry<string>>,
                            b: seq<JoinRow>, rest: seq<JoinRow>, place: nat)
    requires AllJoinedFrom(msgs, g, board, b, place) && AllJoinedFrom(msgs, g, board, rest, place + 1)
    ensures AllJoinedFrom(msgs, g, board, b + rest, place)
  {
    var r := b + rest;
    forall p | 0 <= p < |r| ensures place <= r[p].place && JoinedAt(msgs, g, board, r[p]) {
      if p >= |b| {
        assert r[p] == rest[p - |b|];
      }
    }
  }

  /** The rows of one entry's block are joined at that entry. */
  lemma BlockRows(msgs: seq<Message>, g: Grouping, board: seq<Entry<string>>, place: nat)
    requires place < |board|
    ensures var b := Block(msgs, g, board, place);
      && (forall p :: 0 <= p < |b| ==> b[p].place == place)
      && AllJoinedFrom(msgs, g, board, b, place)
  {
    var b := Block(msgs, g, board, place);
    var k := board[place].key;
    if Newest(msgs, g, k).Some? {
      var ts := Newest(msgs, g, k).value.timestamp;
      var rows := Matches(msgs, g, k, ts);
      forall p | 0 <= p < |b| ensures b[p].place == place && JoinedAt(msgs, g, board, b[p]) {
        assert b[p] == JoinRow(place, board[place], rows[p]);
        assert rows[p] in rows;
      }
    }
  }

  /** Every joined row comes from an entry at or after `place`, as `JoinedAt` describes. */
  lemma {:induction false} JoinFromRows(msgs: seq<Message>, g: Grouping, board: seq<Entry<string>>, place: nat)
    requires place <= |board|
    ensures AllJoinedFrom(msgs, g, board, JoinFrom(msgs, g, board, place), place)
    decreases |board| - place
  {
    if place < |board| {
      JoinFromRows(msgs, g, board, place + 1);
      BlockRows(msgs, g, board, place);
      AllJoinedFromConcat(msgs, g, board, Block(msgs, g, board, place), JoinFrom(msgs, g, board, place + 1), place);
    }
  }

  /** The board places of `r` never decrease. */
  predicate PlacesOrdered(r: seq<JoinRow>) {
    forall p, q :: 0 <= p < q < |r| ==> r[p].place <= r[q].place
  }

  lemma PlacesOrderedConcat(b: seq<JoinRow>, rest: seq<JoinRow>, place: nat)
    requires forall p :: 0 <= p < |b| ==> b[p].place == place
    requires forall p :: 0 <= p < |rest| ==> place < rest[p].place
    requires PlacesOrdered(rest)
    ensures PlacesOrdered(b + rest)
  {
    var r := b + rest;
    forall p, q | 0 <= p < q < |r| ensures r[p].place <= r[q].place {
      if q >= |b| {
        assert r[q] == rest[q - |b|];
        if p >= |b| {
          assert r[p] == rest[p - |b|];
        }
      }
    }
  }

  /** Along the join the board places never decrease: `ORDER BY msg_count DESC`. */
  lemma {:induction false} JoinFromOrdered(msgs: seq<Message>, g: Grouping, board: seq<Entry<string>>, place: nat)
    requires place <= |board|
    ensures PlacesOrdered(JoinFrom(msgs, g, board, place))
    decreases |board| - place
  {
    if place < |board| {
      JoinFromOrdered(msgs, g, board, place + 1);
      JoinFromRows(msgs, g, board, place + 1);
      BlockRows(msgs, g, board, place);
      var rest := JoinFrom(msgs, g, board, place + 1);
      assert forall p :: 0 <= p < |rest| ==> place < rest[p].place;
      PlacesOrderedConcat(Block(msgs, g, board, place), rest, place);
    }
  }

  /** An entry with a newest row has a non-empty block. */
  lemma BlockNonEmpty(msgs: seq<Message>, g: Grouping, board: seq<Entry<string>>, place: nat)
    requires place < |board| && Newest(msgs, g, board[place].key).Some?
    ensures |Block(msgs, g, board, place)| > 0
  {
    var k := board[place].key;
    var m := Newest(msgs, g, k).value;
    assert m in Matches(msgs, g, k, m.timestamp);
  }

  lemma CoveredConcat(b: seq<JoinRow>, rest: seq<JoinRow>, j: nat)
    requires Covered(b, j) || Covered(rest, j)
    ensures Covered(b + rest, j)
  {
    if Covered(b, j) {
      var p :| 0 <= p < |b| && b[p].place == j;
      assert (b + rest)[p] == b[p];
    } else {
      var p :| 0 <= p < |rest| && rest[p].place == j;
      assert (b + rest)[|b| + p] == rest[p];
    }
  }

  /** When every entry has a newest row, every entry from `place` on contributes a joined row. */
  lemma {:induction false} JoinFromCovers(msgs: seq<Message>, g: Grouping, board: seq<Entry<string>>, place: nat, j: nat)
    requires AllHaveNewest(msgs, g, board) && place <= j < |board|
    ensures Covered(JoinFrom(msgs, g, board, place), j)
    decreases |board| - place
  {
    var b := Block(msgs, g, board, place);
    if j == place {
      BlockNonEmpty(msgs, g, board, place);
      BlockRows(msgs, g, board, place);
      assert b[0].place == j;
    } else {
      JoinFromCovers(msgs, g, board, place + 1, j);
    }
    CoveredConcat(b, JoinFrom(msgs, g, board, place + 1), j);
  }

  /** A row at a place that no row of `r` has does not occur in `r`. */
  lemma AbsentPlace(r: seq<JoinRow>, x: JoinRow)
    requires forall p :: 0 <= p < |r| ==> r[p].place != x.place
    ensures multiset(r)[x] == 0
  {
    forall p | 0 <= p < |r| ensures r[p] != x { }
    assert x !in r;
  }

  /** An entry's block holds each of its matches once per copy of it in the table. */
  lemma BlockCount(msgs: seq<Message>, g: Grouping, board: seq<Entry<string>>, place: nat, m: Message)
    requires place < |board| && Newest(msgs, g, board[place].key).Some?
    requires KeyOf(m, g) == board[place].key && m.timestamp == Newest(msgs, g, board[place].key).value.timestamp
    ensures multiset(Block(msgs, g, board, place))[JoinRow(place, board[place], m)] == multiset(msgs)[m]
  {
    var k := board[place].key;
    var ts := Newest(msgs, g, k).value.timestamp;
    TagCount(Matches(msgs, g, k, ts), place, board[place], m);
  }

  /**
   * The join splits around any entry: the rows of earlier entries, that entry's block, and
   * the rows of later entries.
   */
  lemma {:induction false} JoinSplits(msgs: seq<Message>, g: Grouping, board: seq<Entry<string>>, place: nat, j: nat)
    returns (pre: seq<JoinRow>, post: seq<JoinRow>)
    requires place <= j < |board|
    ensures JoinFrom(msgs, g, board, place) == pre + Block(msgs, g, board, j) + post
    ensures forall p :: 0 <= p < |pre| ==> pre[p].place < j
    ensures forall p :: 0 <= p < |post| ==> j < post[p].place
    decreases |board| - place
  {
    var b := Block(msgs, g, board, place);
    var rest := JoinFrom(msgs, g, board, place + 1);
    assert JoinFrom(msgs, g, board, place) == b + rest;
    BlockRows(msgs, g, board, place);
    if place == j {
      JoinFromRows(msgs, g, board, place + 1);
      pre, post := [], rest;
    } else {
      var pre', post' := JoinSplits(msgs, g, board, place + 1, j);
      pre, post := b + pre', post';
      SplitStep(b, pre', Block(msgs, g, board, j), post', place, j);
      assert JoinFrom(msgs, g, board, place) == pre + Block(msgs, g, board, j) + post;
      assert forall p :: 0 <= p < |pre| ==> pre[p].place < j;
      assert forall p :: 0 <= p < |post| ==> j < post[p].place;
    }
  }

  lemma SplitStep(b: seq<JoinRow>, pre: seq<JoinRow>, blk: seq<JoinRow>, post: seq<JoinRow>, place: nat, j: nat)
    requires place < j
    requires forall p :: 0 <= p < |b| ==> b[p].place == place
    requires forall p :: 0 <= p < |pre| ==> pre[p].place < j
    ensures b + (pre + blk + post) == (b + pre) + blk + post
    ensures forall p :: 0 <= p < |b + pre| ==> (b + pre)[p].place < j
  {
    forall p | 0 <= p < |b + pre| ensures (b + pre)[p].place < j {
      if p >= |b| {
        assert (b + pre)[p] == pre[p - |b|];
      }
    }
  }

  lemma CountConcat(pre: seq<JoinRow>, b: seq<JoinRow>, post: seq<JoinRow>, x: JoinRow)
    ensures multiset(pre + b + post)[x] == multiset(pre)[x] + multiset(b)[x] + multiset(post)[x]
  {
  }

  /**
   * The tie rule of the join: the entry at `j` is joined once per copy of every `T1`
   * message with its key at its latest timestamp, so two messages stored at the same
   * instant give that key two rows.
   */
  lemma JoinKeepsTies(msgs: seq<Message>, g: Grouping, board: seq<Entry<string>>, place: nat, j: nat, m: Message)
    requires place <= j < |board|
    requires Newest(msgs, g, board[j].key).Some?
    requires KeyOf(m, g) == board[j].key && m.timestamp == Newest(msgs, g, board[j].key).value.timestamp
    ensures multiset(JoinFrom(msgs, g, board, place))[JoinRow(j, board[j], m)] == multiset(msgs)[m]
  {
    var x := JoinRow(j, board[j], m);
    var pre, post := JoinSplits(msgs, g, board, place, j);
    AbsentPlace(pre, x);
    AbsentPlace(post, x);
    BlockCount(msgs, g, board, j, m);
    CountConcat(pre, Block(msgs, g, board, j), post, x);
  }

  /** What a leaderboard entry is in terms of the table: a key with admitted rows, counted exactly. */
  lemma BoardFacts(msgs: seq<Message>, g: Grouping)
    ensures var board := Leaderboard(Column(msgs, g));
      && SortedDesc(board)
      && AllHaveNewest(msgs, g, board)
      && (forall j :: 0 <= j < |board| ==>
            board[j].key in Column(msgs, g) && board[j].count == |Rows(msgs, g, board[j].key)| && board[j].count >= 1)
      && (forall k :: k in Column(msgs, g) ==> exists j :: 0 <= j < |board| && board[j].key == k)
  {
    var board := Leaderboard(Column(msgs, g));
    LeaderboardSpec(Column(msgs, g));
    LeaderboardHasNewest(msgs, g);
    forall j | 0 <= j < |board| ensures board[j].count == |Rows(msgs, g, board[j].key)| {
      ColumnCounts(msgs, g, board[j].key);
    }
  }

  /** A prefix of joined rows ordered by place, over a board ordered by count, keeps places and counts in order. */
  lemma OrderedPrefixFacts(msgs: seq<Message>, g: Grouping, board: seq<Entry<string>>, all: seq<JoinRow>, js: seq<JoinRow>)
    requires SortedDesc(board) && PlacesOrdered(all) && AllJoinedFrom(msgs, g, board, all, 0)
    requires |js| <= |all| && js == all[..|js|]
    ensures forall p :: 0 <= p < |js| ==> JoinedAt(msgs, g, board, js[p])
    ensures forall p, q :: 0 <= p < q < |js| ==> js[p].place <= js[q].place && js[p].entry.count >= js[q].entry.count
  {
    forall p | 0 <= p < |js| ensures JoinedAt(msgs, g, board, js[p]) {
      assert js[p] == all[p];
    }
    forall p, q | 0 <= p < q < |js| ensures js[p].place <= js[q].place && js[p].entry.count >= js[q].entry.count {
      assert js[p] == all[p] && js[q] == all[q];
      assert JoinedAt(msgs, g, board, all[p]) && JoinedAt(msgs, g, board, all[q]);
      assert all[p].place <= all[q].place;
    }
  }

  /** Over any board ordered by count, the limited join keeps its rows' places and counts in order. */
  lemma LimitedJoinOn(msgs: seq<Message>, g: Grouping, board: seq<Entry<string>>, limit: int)
    requires SortedDesc(board)
    ensures var js := Limit(JoinFrom(msgs, g, board, 0), limit);
      && (forall p :: 0 <= p < |js| ==> JoinedAt(msgs, g, board, js[p]))
      && (forall p, q :: 0 <= p < q < |js| ==> js[p].place <= js[q].place && js[p].entry.count >= js[q].entry.count)
  {
    var all := JoinFrom(msgs, g, board, 0);
    var js := Limit(all, limit);
    JoinFromRows(msgs, g, board, 0);
    JoinFromOrdered(msgs, g, board, 0);
    OrderedPrefixFacts(msgs, g, board, all, js);
  }

  /**
   * The rows a grouped query returns (`ORDER BY msg_count DESC LIMIT n` over the join):
   * each joins an entry with its key, its exact count and that key's latest timestamp,
   * and counts never increase along them.
   */
  lemma LimitedJoinFacts(msgs: seq<Message>, g: Grouping, limit: int)
    ensures var board := Leaderboard(Column(msgs, g));
      var js := Limit(Join(msgs, g), limit);
      && (forall p :: 0 <= p < |js| ==>
            && JoinedAt(msgs, g, board, js[p]) && js[p].entry.key in Column(msgs, g)
            && js[p].entry.count == |Rows(msgs, g, js[p].entry.key)| && js[p].entry.count >= 1)
      && (forall p, q :: 0 <= p < q < |js| ==> js[p].place <= js[q].place && js[p].entry.count >= js[q].entry.count)
  {
    var board := Leaderboard(Column(msgs, g));
    var js := Limit(Join(msgs, g), limit);
    BoardFacts(msgs, g);
    LimitedJoinOn(msgs, g, board, limit);
    assert js == Limit(JoinFrom(msgs, g, board, 0), limit);
    forall p | 0 <= p < |js|
      ensures JoinedAt(msgs, g, board, js[p]) && js[p].entry.key in Column(msgs, g)
      ensures js[p].entry.count == |Rows(msgs, g, js[p].entry.key)| && js[p].entry.count >= 1
    {
      assert js[p].entry == board[js[p].place];
    }
  }

  /**
   * In joined rows ordered by place, a prefix without the key of entry `j` lies before
   * that entry's first row, so it holds only entries ranked at least as high.
   */
  lemma OrderedPrefixIsTop(msgs: seq<Message>, g: Grouping, board: seq<Entry<string>>,
                           all: seq<JoinRow>, r: seq<JoinRow>, j: nat, q: nat)
    requires SortedDesc(board) && PlacesOrdered(all) && AllJoinedFrom(msgs, g, board, all, 0)
    requires |r| <= |all| && r == all[..|r|] && q < |all| && all[q].place == j
    requires forall p :: 0 <= p < |r| ==> r[p].entry.key != board[j].key
    ensures forall p :: 0 <= p < |r| ==> r[p].entry.count >= board[j].count
  {
    assert JoinedAt(msgs, g, board, all[q]);
    assert q >= |r| by {
      forall p | 0 <= p < |r| ensures all[p].place != j {
        assert r[p] == all[p] && JoinedAt(msgs, g, board, all[p]);
      }
    }
    forall p | 0 <= p < |r| ensures r[p].entry.count >= board[j].count {
      assert r[p] == all[p] && JoinedAt(msgs, g, board, all[p]);
      assert all[p].place <= all[q].place;
    }
  }

  /** Over any board ordered by count, an entry no kept row joins has no larger count than any kept row. */
  lemma JoinIsTopOn(msgs: seq<Message>, g: Grouping, board: seq<Entry<string>>, limit: int, j: nat)
    requires SortedDesc(board) && AllHaveNewest(msgs, g, board) && j < |board|
    requires forall p :: 0 <= p < |Limit(JoinFrom(msgs, g, board, 0), limit)| ==>
      Limit(JoinFrom(msgs, g, board, 0), limit)[p].entry.key != board[j].key
    ensures forall p :: 0 <= p < |Limit(JoinFrom(msgs, g, board, 0), limit)| ==>
      Limit(JoinFrom(msgs, g, board, 0), limit)[p].entry.count >= board[j].count
  {
    var all := JoinFrom(msgs, g, board, 0);
    JoinFromRows(msgs, g, board, 0);
    JoinFromOrdered(msgs, g, board, 0);
    JoinFromCovers(msgs, g, board, 0, j);
    var q :| 0 <= q < |all| && all[q].place == j;
    OrderedPrefixIsTop(msgs, g, board, all, Limit(all, limit), j, q);
  }

  /**
   * `ORDER BY msg_count DESC LIMIT n` keeps the top: a key with admitted rows that no kept
   * row joins has no larger count than any kept row.
   */
  lemma JoinIsTop(msgs: seq<Message>, g: Grouping, limit: int, k: string)
    requires k in Column(msgs, g)
    requires forall p :: 0 <= p < |Limit(Join(msgs, g), limit)| ==> Limit(Join(msgs, g), limit)[p].entry.key != k
    ensures forall p :: 0 <= p < |Limit(Join(msgs, g), limit)| ==>
      Limit(Join(msgs, g), limit)[p].entry.count >= |Rows(msgs, g, k)|
  {
    var board := Leaderboard(Column(msgs, g));
    var r := Limit(Join(msgs, g), limit);
    assert r == Limit(JoinFrom(msgs, g, board, 0), limit);
    BoardFacts(msgs, g);
    var j :| 0 <= j < |board| && board[j].key == k;
    JoinIsTopOn(msgs, g, board, limit, j);
    assert forall p :: 0 <= p < |r| ==> r[p].entry.count >= board[j].count;
  }

  /** A row of the user leaderboards: id, display name, username, message count. */
  datatype UserRow = UserRow(userId: string, userName: string, userUsername: string, count: nat)

  /** A row of the group leaderboard: title, username, message count. */
  datatype GroupRow = GroupRow(chatTitle: string, chatUsername: string, count: nat)

  /** The names shown for a user are those of one of the user's messages at the latest admitted time. */
  ghost predicate ShownUser(msgs: seq<Message>, g: Grouping, u: UserRow)
    requires Newest(msgs, g, u.userId).Some?
  {
    exists m :: m in msgs && m.userId == u.userId && m.userName == u.userName && m.userUsername == u.userUsername
      && m.timestamp == Newest(msgs, g, u.userId).value.timestamp
  }

  /**
   * A group row shows the title and username of a message of some supergroup stamped at
   * that group's latest admitted time, with the number of the group's admitted messages.
   */
  ghost predicate ShownGroup(msgs: seq<Message>, g: Grouping, r: GroupRow) {
    exists m :: m in msgs && IsGroupId(m.chatId) && m.chatTitle == r.chatTitle && m.chatUsername == r.chatUsername
      && r.count == |Rows(msgs, g, m.chatId)| && r.count >= 1
      && Newest(msgs, g, m.chatId).Some? && m.timestamp == Newest(msgs, g, m.chatId).value.timestamp
  }

  function UserRowOf(j: JoinRow): UserRow {
    UserRow(j.entry.key, j.row.userName, j.row.userUsername, j.entry.count)
  }

  function GroupRowOf(j: JoinRow): GroupRow {
    GroupRow(j.row.chatTitle, j.row.chatUsername, j.entry.count)
  }

  /** The grouping of the user leaderboards. */
  function UserGrouping(optOuts: set<string>, chat: Option<string>, start: int): Grouping {
    Senders(Scope(chat, Some(start), ExclusionList(optOuts)))
  }

  /**
   * `get_top_users_by_period` (with a chat) and `get_global_top_users_by_period` (without):
   * the joined rows of the most active eligible users of the window, `limit` at most.
   */
  function TopUsers(msgs: seq<Message>, optOuts: set<string>, chat: Option<string>, period: string,
                    now: LocalDateTime, limit: int): (r: seq<UserRow>)
    ensures StartTime(period, now).None? ==> r == []
    ensures limit >= 0 ==> |r| <= limit
  {
    match StartTime(period, now)
    case None => []
    case Some(start) => MapSeq(Limit(Join(msgs, UserGrouping(optOuts, chat, start)), limit), UserRowOf)
  }

  /**
   * The user leaderboard is ordered by count, each count is exactly the user's admitted
   * messages, no service, group or excluded id appears, and the names shown are those of
   * one of the user's messages (in any chat) stamped at the user's latest admitted time.
   */
  lemma TopUsersSpec(msgs: seq<Message>, optOuts: set<string>, chat: Option<string>, period: string,
                     now: LocalDateTime, limit: int)
    requires StartTime(period, now).Some?
    ensures var r := TopUsers(msgs, optOuts, chat, period, now, limit);
      var g := UserGrouping(optOuts, chat, StartTime(period, now).value);
      && (forall i, j :: 0 <= i < j < |r| ==> r[i].count >= r[j].count)
      && (forall i :: 0 <= i < |r| ==> r[i].count == |Rows(msgs, g, r[i].userId)| && r[i].count >= 1)
      && (forall i :: 0 <= i < |r| ==> !IsGroupId(r[i].userId) && r[i].userId !in ExclusionList(optOuts))
      && (forall i :: 0 <= i < |r| ==> Newest(msgs, g, r[i].userId).Some? && ShownUser(msgs, g, r[i]))
  {
    var g := UserGrouping(optOuts, chat, StartTime(period, now).value);
    var js := Limit(Join(msgs, g), limit);
    var r := TopUsers(msgs, optOuts, chat, period, now, limit);
    LimitedJoinFacts(msgs, g, limit);
    forall i | 0 <= i < |r|
      ensures r[i] == UserRowOf(js[i]) && r[i].count == |Rows(msgs, g, r[i].userId)| && r[i].count >= 1
      ensures !IsGroupId(r[i].userId) && r[i].userId !in ExclusionList(optOuts)
      ensures Newest(msgs, g, r[i].userId).Some? && ShownUser(msgs, g, r[i])
    {
      SendersAreEligible(msgs, g.scope, js[i].entry.key);
      assert js[i].row.userId == r[i].userId;
    }
  }

  /** A user with admitted messages who is not on the board has no more messages than anyone on it. */
  lemma TopUsersAreTop(msgs: seq<Message>, optOuts: set<string>, chat: Option<string>, period: string,
                       now: LocalDateTime, limit: int, u: string)
    requires StartTime(period, now).Some?
    requires u in Column(msgs, UserGrouping(optOuts, chat, StartTime(period, now).value))
    requires forall i :: 0 <= i < |TopUsers(msgs, optOuts, chat, period, now, limit)| ==>
      TopUsers(msgs, optOuts, chat, period, now, limit)[i].userId != u
    ensures forall i :: 0 <= i < |TopUsers(msgs, optOuts, chat, period, now, limit)| ==>
      TopUsers(msgs, optOuts, chat, period, now, limit)[i].count
        >= |Rows(msgs, UserGrouping(optOuts, chat, StartTime(period, now).value), u)|
  {
    var g := UserGrouping(optOuts, chat, StartTime(period, now).value);
    var js := Limit(Join(msgs, g), limit);
    var r := TopUsers(msgs, optOuts, chat, period, now, limit);
    forall p | 0 <= p < |js| ensures js[p].entry.key != u {
      assert r[p] == UserRowOf(js[p]);
    }
    JoinIsTop(msgs, g, limit, u);
    forall i | 0 <= i < |r| ensures r[i].count >= |Rows(msgs, g, u)| {
      assert r[i] == UserRowOf(js[i]);
    }
  }

  /**
   * Nothing is lost in the join: every message with an admitted key, stamped at that key's
   * latest admitted time, is joined to the key's entry and its exact count.
   */
  lemma JoinShowsTies(msgs: seq<Message>, g: Grouping, m: Message)
    requires KeyOf(m, g) in Column(msgs, g) && m in msgs
    requires Newest(msgs, g, KeyOf(m, g)).Some? && m.timestamp == Newest(msgs, g, KeyOf(m, g)).value.timestamp
    ensures exists p :: (0 <= p < |Join(msgs, g)| && Join(msgs, g)[p].row == m
                         && Join(msgs, g)[p].entry == Entry(KeyOf(m, g), |Rows(msgs, g, KeyOf(m, g))|))
  {
    var board := Leaderboard(Column(msgs, g));
    var all := Join(msgs, g);
    assert all == JoinFrom(msgs, g, board, 0);
    BoardFacts(msgs, g);
    var j :| 0 <= j < |board| && board[j].key == KeyOf(m, g);
    var p := JoinedOn(msgs, g, board, j, m);
    assert board[j] == Entry(KeyOf(m, g), |Rows(msgs, g, KeyOf(m, g))|);
    assert all[p] == JoinRow(j, board[j], m);
  }

  /** Over any board, a stored message of entry `j`'s key at its latest time is one of the joined rows. */
  lemma JoinedOn(msgs: seq<Message>, g: Grouping, board: seq<Entry<string>>, j: nat, m: Message) returns (p: nat)
    requires j < |board| && m in msgs && KeyOf(m, g) == board[j].key
    requires Newest(msgs, g, board[j].key).Some? && m.timestamp == Newest(msgs, g, board[j].key).value.timestamp
    ensures p < |JoinFrom(msgs, g, board, 0)| && JoinFrom(msgs, g, board, 0)[p] == JoinRow(j, board[j], m)
  {
    var all := JoinFrom(msgs, g, board, 0);
    JoinKeepsTies(msgs, g, board, 0, j, m);
    assert multiset(msgs)[m] >= 1;
    assert JoinRow(j, board[j], m) in all;
    p :| 0 <= p < |all| && all[p] == JoinRow(j, board[j], m);
  }

  /**
   * Below the limit nothing is cut: a message of an admitted user stamped at that user's
   * latest admitted time (in any chat) is shown as one of the rows, so a tie gives the
   * user a row per distinct name pair.
   */
  lemma TopUsersShowTies(msgs: seq<Message>, optOuts: set<string>, chat: Option<string>, period: string,
                         now: LocalDateTime, limit: int, m: Message)
    requires StartTime(period, now).Some?
    requires limit < 0 || |TopUsers(msgs, optOuts, chat, period, now, limit)| < limit
    requires m.userId in Column(msgs, UserGrouping(optOuts, chat, StartTime(period, now).value))
    requires m in msgs
    requires Newest(msgs, UserGrouping(optOuts, chat, StartTime(period, now).value), m.userId).Some?
    requires m.timestamp == Newest(msgs, UserGrouping(optOuts, chat, StartTime(period, now).value), m.userId).value.timestamp
    ensures UserRow(m.userId, m.userName, m.userUsername,
                    |Rows(msgs, UserGrouping(optOuts, chat, StartTime(period, now).value), m.userId)|)
              in TopUsers(msgs, optOuts, chat, period, now, limit)
  {
    var g := UserGrouping(optOuts, chat, StartTime(period, now).value);
    var all := Join(msgs, g);
    var r := TopUsers(msgs, optOuts, chat, period, now, limit);
    assert r == MapSeq(all, UserRowOf);
    JoinShowsTies(msgs, g, m);
    var p :| 0 <= p < |all| && all[p].row == m && all[p].entry == Entry(m.userId, |Rows(msgs, g, m.userId)|);
    assert r[p] == UserRowOf(all[p]);
  }

  /** `get_global_top_groups_by_period`: the joined rows of the busiest supergroups of the window, no exclusions. */
  function TopGroups(msgs: seq<Message>, period: string, now: LocalDateTime, limit: int): (r: seq<GroupRow>)
    ensures StartTime(period, now).None? ==> r == []
    ensures limit >= 0 ==> |r| <= limit
  {
    match StartTime(period, now)
    case None => []
    case Some(start) => MapSeq(Limit(Join(msgs, Groups(start)), limit), GroupRowOf)
  }

  /**
   * The group leaderboard is ordered by count, and each row shows the title and username
   * of a message of some supergroup stamped at that group's latest time in the window,
   * with the number of the group's messages in the window.
   */
  lemma TopGroupsSpec(msgs: seq<Message>, period: string, now: LocalDateTime, limit: int)
    requires StartTime(period, now).Some?
    ensures var r := TopGroups(msgs, period, now, limit);
      var g := Groups(StartTime(period, now).value);
      && (forall i, j :: 0 <= i < j < |r| ==> r[i].count >= r[j].count)
      && (forall i :: 0 <= i < |r| ==> ShownGroup(msgs, g, r[i]))
  {
    var g := Groups(StartTime(period, now).value);
    var js := Limit(Join(msgs, g), limit);
    var r := TopGroups(msgs, period, now, limit);
    LimitedJoinFacts(msgs, g, limit);
    forall i | 0 <= i < |r| ensures r[i] == GroupRowOf(js[i]) && ShownGroup(msgs, g, r[i]) {
      GroupKeysAreGroups(msgs, g.since, js[i].entry.key);
      assert js[i].row.chatId == js[i].entry.key;
    }
  }

  lemma GroupKeysAreGroups(msgs: seq<Message>, since: int, k: string)
    requires k in Column(msgs, Groups(since))
    ensures IsGroupId(k)
  {
    ColumnMembers(msgs, Groups(since), k);
  }

  /**
   * `is_valid_topic`: after stripping, at least two characters, no leading '/', at least
   * one letter, and not a long run over at most two distinct characters.
   */
  predicate IsValidTopic(text: string) {
    ValidCleaned(Strip(text))
  }

  /** The rules applied to the stripped text. */
  predicate ValidCleaned(cleaned: string) {
    !(|cleaned| < 2 || StartsWith(cleaned, "/") || !(exists i :: 0 <= i < |cleaned| && IsAlpha(cleaned[i]))
      || (|cleaned| > 4 && |set c | c in cleaned| <= 2))
  }

  /** Each rejection rule on its own. */
  lemma ValidTopicRules(text: string)
    ensures |Strip(text)| < 2 ==> !IsValidTopic(text)
    ensures Strip(text) != [] && Strip(text)[0] == '/' ==> !IsValidTopic(text)
    ensures (forall c :: c in text ==> !IsAlpha(c)) ==> !IsValidTopic(text)
    ensures IsValidTopic(text) ==> !IsSpace(Strip(text)[0]) && exists c :: c in text && IsAlpha(c)
  {
    var cleaned := Strip(text);
    if cleaned != [] && cleaned[0] == '/' {
      assert StartsWith(cleaned, "/");
    }
    if IsValidTopic(text) {
      var i :| 0 <= i < |cleaned| && IsAlpha(cleaned[i]);
      assert cleaned[i] in cleaned;
    }
  }

  /** A text without surrounding whitespace is judged as it stands. */
  lemma ValidTopicOfClean(t: string)
    requires forall i :: 0 <= i < |t| ==> !IsSpace(t[i])
    ensures IsValidTopic(t) == ValidCleaned(t)
  {
    StripOfSpaceFree(t);
  }

  lemma ValidTopicAccepted()
    ensures IsValidTopic("cat")
  {
    ValidTopicOfClean("cat");
    assert IsAlpha("cat"[0]);
  }

  lemma ValidTopicRejectsCommand()
    ensures !IsValidTopic("/start")
  {
    ValidTopicOfClean("/start");
    assert StartsWith("/start", "/");
  }

  lemma ValidTopicRejectsDigits()
    ensures !IsValidTopic("12345")
  {
    ValidTopicOfClean("12345");
    assert forall i :: 0 <= i < 5 ==> !IsAlpha("12345"[i]);
  }

  /** A text longer than 4 made of at most two distinct characters is rejected. */
  lemma RepetitionRejected(t: string, a: char, b: char)
    requires |t| > 4 && !IsSpace(a) && !IsSpace(b)
    requires forall i :: 0 <= i < |t| ==> t[i] == a || t[i] == b
    ensures !IsValidTopic(t)
  {
    ValidTopicOfClean(t);
    var letters := set c | c in t;
    assert letters <= {a, b};
    assert t[0] in letters;
    if a in letters && b in letters {
      assert letters == {a, b};
    } else if a in letters {
      assert letters == {a};
    } else {
      assert letters == {b};
    }
  }

  lemma ValidTopicRejectsRepetition()
    ensures !IsValidTopic("ababab")
  {
    var t := "ababab";
    assert forall i :: 0 <= i < |t| ==> t[i] == 'a' || t[i] == 'b';
    RepetitionRejected(t, 'a', 'b');
  }

  /** The Python-side test `row[0] and is_valid_topic(row[0])`. */
  predicate KeptTopic(t: string) {
    t != [] && IsValidTopic(t)
  }

  /** `[t for t in texts if t and is_valid_topic(t)]`. */
  function ValidTopics(texts: seq<string>): seq<string> {
    Filter(texts, KeptTopic)
  }

  /**
   * `_fetch_texts_for_period`: texts of the window from eligible users (ranking opt-outs
   * excluded), from one chat when `chatId` is a non-empty id, kept when they are
   * non-empty valid topics.
   */
  function FetchTexts(msgs: seq<Message>, optOuts: set<string>, chatId: Option<string>, period: string,
                      now: LocalDateTime): (r: seq<string>)
    ensures StartTime(period, now).None? ==> r == []
    ensures forall t :: t in r ==> t != [] && IsValidTopic(t)
  {
    match StartTime(period, now)
    case None => []
    case Some(start) => ValidTopics(Column(msgs, Texts(TopicScope(chatId, start, optOuts))))
  }

  function TopicScope(chatId: Option<string>, start: int, optOuts: set<string>): Scope {
    Scope(if chatId.Some? && chatId.value != [] then chatId else None, Some(start), ExclusionList(optOuts))
  }

  /** A valid topic is counted once per admitted message carrying exactly that text. */
  lemma FetchTextsCount(msgs: seq<Message>, optOuts: set<string>, chatId: Option<string>, period: string,
                        now: LocalDateTime, t: string)
    requires StartTime(period, now).Some? && t != [] && IsValidTopic(t)
    ensures multiset(FetchTexts(msgs, optOuts, chatId, period, now))[t]
      == |Rows(msgs, Texts(TopicScope(chatId, StartTime(period, now).value, optOuts)), t)|
  {
    ColumnCounts(msgs, Texts(TopicScope(chatId, StartTime(period, now).value, optOuts)), t);
  }

  /** `get_top_topics_by_period` / `get_global_top_topics_by_period`: `Counter(texts).most_common(limit)`. */
  function TopTopics(msgs: seq<Message>, optOuts: set<string>, chatId: Option<string>, period: string,
                     now: LocalDateTime, limit: int): (r: seq<Entry<string>>)
    ensures FetchTexts(msgs, optOuts, chatId, period, now) == [] ==> r == []
    ensures limit <= 0 ==> r == []
    ensures |r| <= |FetchTexts(msgs, optOuts, chatId, period, now)|
  {
    var texts := FetchTexts(msgs, optOuts, chatId, period, now);
    if texts == [] then [] else MostCommon(texts, limit)
  }

  /** Top topics are valid, distinct, exactly counted among the fetched texts, and in descending order. */
  lemma TopTopicsSpec(msgs: seq<Message>, optOuts: set<string>, chatId: Option<string>, period: string,
                      now: LocalDateTime, limit: int)
    ensures var r := TopTopics(msgs, optOuts, chatId, period, now, limit);
      var texts := FetchTexts(msgs, optOuts, chatId, period, now);
      && (forall i, j :: 0 <= i < j < |r| ==> r[i].count >= r[j].count && r[i].key != r[j].key)
      && (forall i :: 0 <= i < |r| ==> r[i].count == multiset(texts)[r[i].key] && IsValidTopic(r[i].key))
  {
    var texts := FetchTexts(msgs, optOuts, chatId, period, now);
    var r := TopTopics(msgs, optOuts, chatId, period, now, limit);
    if r != [] {
      var board := Leaderboard(texts);
      LeaderboardSpec(texts);
      assert forall i :: 0 <= i < |r| ==> r[i] == board[i];
      forall i, j | 0 <= i < j < |r| ensures r[i].count >= r[j].count && r[i].key != r[j].key {
        assert Keys(board)[i] == board[i].key && Keys(board)[j] == board[j].key;
      }
    }
  }

  /** A topic left out of a full top-N list was never more frequent than the last one listed. */
  lemma TopTopicsAreTop(msgs: seq<Message>, optOuts: set<string>, chatId: Option<string>, period: string,
                        now: LocalDateTime, limit: int, t: string)
    requires var r := TopTopics(msgs, optOuts, chatId, period, now, limit);
      r != [] && t in FetchTexts(msgs, optOuts, chatId, period, now) && t !in Keys(r)
    ensures var r := TopTopics(msgs, optOuts, chatId, period, now, limit);
      multiset(FetchTexts(msgs, optOuts, chatId, period, now))[t] <= r[|r| - 1].count
  {
    var texts := FetchTexts(msgs, optOuts, chatId, period, now);
    var r := TopTopics(msgs, optOuts, chatId, period, now, limit);
    assert r == MostCommon(texts, limit);
    MostCommonIsTop(texts, limit, t);
  }

  lemma MostCommonIsTop(texts: seq<string>, limit: int, t: string)
    requires MostCommon(texts, limit) != [] && t in texts && t !in Keys(MostCommon(texts, limit))
    ensures var r := MostCommon(texts, limit); multiset(texts)[t] <= r[|r| - 1].count
  {
    var r := MostCommon(texts, limit);
    var board := Leaderboard(texts);
    assert r == board[..|r|];
    LeaderboardPrefixIsTop(texts, |r|, t);
    assert board[|r| - 1] == r[|r| - 1];
  }
}
