/**
 * The warning counter of the moderation system (a per-(chat, user) count that starts
 * over after 24 hours) and the per-chat conversation memory: chat histories held as
 * deques of at most 40 records, loaded from their saved form with records older than
 * 24 hours dropped.
 */
module Memory {
  import opened Wrappers
  import opened Text
  import opened Time
  import opened Database

  /** `WARNING_EXPIRY_HOURS`. */
  const WarningExpiry: int := 24 * Hour

  /** `MEMORY_DEPTH`: the `maxlen` of every chat history. */
  const MemoryDepth: nat := 40

  /** `HISTORY_TTL_HOURS`. */
  const HistoryTtl: int := 24 * Hour

  // ---------------------------------------------------------------------------------
  // Warnings

  /**
   * The level `record_and_get_warning_level` assigns: 1 without a record; 1 when more than
   * 24 hours have passed since the last warning, or when the stored time cannot be compared;
   * otherwise the previous count plus one.
   */
  function NextWarningCount(row: Option<WarningRow>, now: int): (level: int)
    ensures row.None? ==> level == 1
    ensures row.Some? && row.value.last.Aware? && now - row.value.last.at > WarningExpiry ==> level == 1
    ensures row.Some? && row.value.last.Aware? && now - row.value.last.at <= WarningExpiry ==> level == row.value.count + 1
    ensures row.Some? && !row.value.last.Aware? ==> level == 1
  {
    match row
    case None => 1
    case Some(r) =>
      match r.last
      case Aware(t) => if now - t > WarningExpiry then 1 else r.count + 1
      case _ => 1
  }

  function WarningRowOf(warnings: map<ChatUser, WarningRow>, key: ChatUser): Option<WarningRow> {
    if key in warnings then Some(warnings[key]) else None
  }

  /** `record_and_get_warning_level`: computes the level, stores `(level, now)`, returns the level. */
  method RecordAndGetWarningLevel(db: Store, key: ChatUser, now: int) returns (level: int)
    modifies db`warnings
    ensures level == NextWarningCount(WarningRowOf(old(db.warnings), key), now)
    ensures db.warnings == old(db.warnings)[key := WarningRow(level, Aware(now))]
  {
    var current := if key in db.warnings then Some(db.warnings[key]) else None;
    level := 1;
    if current.Some? {
      match current.value.last {
        case Aware(t) =>
          if now - t > WarningExpiry {
            level := 1;
          } else {
            level := current.value.count + 1;
          }
        case _ =>
          level := 1;
      }
    }
    db.UpdateUserWarning(key, level, Aware(now));
  }

  /** The row after a run of violations at the given times. */
  function WarningAfter(row: Option<WarningRow>, times: seq<int>): Option<WarningRow>
    decreases |times|
  {
    if times == [] then row
    else WarningAfter(Some(WarningRow(NextWarningCount(row, times[0]), Aware(times[0]))), times[1..])
  }

  /** Violations no more than 24 hours apart. */
  predicate CloseTogether(times: seq<int>) {
    forall i :: 0 < i < |times| ==> times[i] - times[i - 1] <= WarningExpiry
  }

  /**
   * Escalation: a user with no record who offends `n` times, each within 24 hours of the
   * previous, reaches level `n` (so the third offence is the one that mutes).
   */
  lemma EscalationCounts(times: seq<int>)
    requires times != [] && CloseTogether(times)
    ensures WarningAfter(None, times) == Some(WarningRow(|times|, Aware(times[|times| - 1])))
  {
    EscalationFrom(1, times[0], times[1..]);
    assert [times[0]] + times[1..] == times;
  }

  lemma {:induction false} EscalationFrom(count: int, last: int, times: seq<int>)
    requires CloseTogether([last] + times)
    ensures WarningAfter(Some(WarningRow(count, Aware(last))), times)
      == Some(WarningRow(count + |times|, Aware(if times == [] then last else times[|times| - 1])))
    decreases |times|
  {
    if times != [] {
      var s := [last] + times;
      assert s[1] == times[0] && s[0] == last;
      assert CloseTogether([times[0]] + times[1..]) by {
        var t := [times[0]] + times[1..];
        forall i | 0 < i < |t| ensures t[i] - t[i - 1] <= WarningExpiry {
          assert t[i] == s[i + 1] && t[i - 1] == s[i];
        }
      }
      EscalationFrom(count + 1, times[0], times[1..]);
    }
  }

  /** A pause of more than 24 hours starts the count over at 1. */
  lemma QuietDayResets(row: WarningRow, last: int, now: int)
    requires row.last == Aware(last) && now - last > WarningExpiry
    ensures WarningAfter(Some(row), [now]) == Some(WarningRow(1, Aware(now)))
  {
  }

  // ---------------------------------------------------------------------------------
  // Chat histories

  /** One history entry; `stamp` is `None` when the record has no `'timestamp'` key. */
  datatype Record = Record(role: string, content: string, stamp: Option<Stamp>)

  /**
   * The test of `_filter_expired_history`: records without a timestamp, or with one that
   * cannot be parsed or compared (the `except` branch), are kept; the others only when
   * strictly newer than the cutoff.
   */
  predicate Keeps(r: Record, cutoff: int) {
    match r.stamp
    case None => true
    case Some(Aware(t)) => t > cutoff
    case Some(_) => true
  }

  /** The records kept, in their original order. */
  function Fresh(history: seq<Record>, cutoff: int): (r: seq<Record>)
    ensures forall x :: x in r <==> x in history && Keeps(x, cutoff)
    ensures |r| <= |history|
  {
    if history == [] then []
    else
      var n := |history| - 1;
      assert history == history[..n] + [history[n]];
      var prefix := Fresh(history[..n], cutoff);
      if Keeps(history[n], cutoff) then prefix + [history[n]] else prefix
  }

  /** Filtering preserves order: it distributes over concatenation. */
  lemma {:induction false} FreshOfConcat(a: seq<Record>, b: seq<Record>, cutoff: int)
    ensures Fresh(a + b, cutoff) == Fresh(a, cutoff) + Fresh(b, cutoff)
    decreases |b|
  {
    if b != [] {
      var n := |b| - 1;
      assert (a + b)[..|a + b| - 1] == a + b[..n];
      FreshOfConcat(a, b[..n], cutoff);
    } else {
      assert a + b == a;
    }
  }

  /** `_filter_expired_history` at `now`. */
  method FilterExpiredHistory(history: seq<Record>, now: int) returns (kept: seq<Record>)
    ensures kept == Fresh(history, now - HistoryTtl)
  {
    var cutoff := now - HistoryTtl;
    kept := [];
    var i := 0;
    while i < |history|
      invariant 0 <= i <= |history|
      invariant kept == Fresh(history[..i], cutoff)
    {
      assert history[..i + 1][..i] == history[..i];
      if history[i].stamp.None? {
        kept := kept + [history[i]];
      } else if history[i].stamp.value.Aware? {
        if history[i].stamp.value.at > cutoff {
          kept := kept + [history[i]];
        }
      } else {
        kept := kept + [history[i]];
      }
      i := i + 1;
    }
    assert history[..i] == history;
  }

  /** `deque(items, maxlen=n)` and, element by element, `append` on a full deque: the last `n` items. */
  function LastN<T>(s: seq<T>, n: nat): (r: seq<T>)
    ensures |r| <= n && |r| <= |s|
    ensures |s| <= n ==> r == s
    ensures r == s[|s| - |r|..]
  {
    if |s| <= n then s else s[|s| - n..]
  }

  /** The saved histories file: absent, unreadable, or its entries in file order. */
  datatype HistoryFile = Missing | Corrupt | Entries(entries: seq<(string, seq<Record>)>)

  /** The histories after loading `entries` in order, stopping at the first key that is not an integer. */
  function LoadEntries(h: map<int, seq<Record>>, entries: seq<(string, seq<Record>)>, now: int): map<int, seq<Record>>
    decreases |entries|
  {
    if entries == [] then h
    else match ParseInt(entries[0].0)
      case None => h
      case Some(id) =>
        var kept := Fresh(entries[0].1, now - HistoryTtl);
        LoadEntries(if kept != [] then h[id := LastN(kept, MemoryDepth)] else h, entries[1..], now)
  }

  function Loaded(h: map<int, seq<Record>>, file: HistoryFile, now: int): map<int, seq<Record>> {
    if file.Entries? then LoadEntries(h, file.entries, now) else h
  }

  /** Every history within `maxlen`. */
  predicate Bounded(h: map<int, seq<Record>>) {
    forall c :: c in h ==> |h[c]| <= MemoryDepth
  }

  /** One loaded entry keeps the histories within `maxlen` and forgets no chat. */
  lemma LoadOneKeeps(h: map<int, seq<Record>>, id: int, kept: seq<Record>)
    requires Bounded(h)
    ensures var h' := if kept != [] then h[id := LastN(kept, MemoryDepth)] else h;
      Bounded(h') && h.Keys <= h'.Keys
  {
  }

  /** Loading never forgets a chat and keeps every history within `maxlen`. */
  lemma {:induction false} LoadEntriesKeeps(h: map<int, seq<Record>>, entries: seq<(string, seq<Record>)>, now: int)
    requires Bounded(h)
    ensures Bounded(LoadEntries(h, entries, now)) && h.Keys <= LoadEntries(h, entries, now).Keys
    decreases |entries|
  {
    if entries != [] {
      match ParseInt(entries[0].0)
      case None =>
      case Some(id) =>
        var kept := Fresh(entries[0].1, now - HistoryTtl);
        var h' := if kept != [] then h[id := LastN(kept, MemoryDepth)] else h;
        LoadOneKeeps(h, id, kept);
        LoadEntriesKeeps(h', entries[1..], now);
    }
  }

  /** A chat whose saved records are all expired, and that no later entry names, is not loaded. */
  lemma {:induction false} LoadEntriesSkipsExpired(h: map<int, seq<Record>>, entries: seq<(string, seq<Record>)>, now: int, id: int)
    requires id !in h
    requires forall k :: 0 <= k < |entries| && ParseInt(entries[k].0) == Some(id) ==>
      Fresh(entries[k].1, now - HistoryTtl) == []
    ensures id !in LoadEntries(h, entries, now)
    decreases |entries|
  {
    if entries != [] {
      match ParseInt(entries[0].0)
      case None =>
      case Some(c) =>
        var kept := Fresh(entries[0].1, now - HistoryTtl);
        var h' := if kept != [] then h[c := LastN(kept, MemoryDepth)] else h;
        assert id !in h';
        forall k | 0 <= k < |entries[1..]| && ParseInt(entries[1..][k].0) == Some(id)
          ensures Fresh(entries[1..][k].1, now - HistoryTtl) == []
        {
          assert entries[1..][k] == entries[k + 1];
        }
        LoadEntriesSkipsExpired(h', entries[1..], now, id);
    }
  }

  class ChatMemory {
    /** `chat_histories`, keyed by the integer chat id. */
    var histories: map<int, seq<Record>>

    ghost predicate Valid()
      reads this
    {
      Bounded(histories)
    }

    constructor ()
      ensures Valid() && histories == map[]
    {
      histories := map[];
    }

    /**
     * `_load_chat_histories`: every entry whose fresh part is non-empty replaces that
     * chat's history with the fresh records (the last 40 of them). A key that is not an
     * integer raises, and the `except` around the loop leaves the entries before it loaded.
     */
    method LoadChatHistories(file: HistoryFile, now: int)
      requires Valid()
      modifies this
      ensures Valid()
      ensures histories == Loaded(old(histories), file, now)
    {
      if !file.Entries? {
        return;
      }
      var i := 0;
      while i < |file.entries|
        invariant 0 <= i <= |file.entries|
        invariant Valid()
        invariant LoadEntries(histories, file.entries[i..], now) == LoadEntries(old(histories), file.entries, now)
      {
        var (key, list) := file.entries[i];
        var chatId := ParseInt(key);
        if chatId.None? {
          return;
        }
        var kept := FilterExpiredHistory(list, now);
        if kept != [] {
          histories := histories[chatId.value := LastN(kept, MemoryDepth)];
        }
        assert file.entries[i..][1..] == file.entries[i + 1..];
        i := i + 1;
      }
    }

    /**
     * `get_chat_history`: a chat not in memory is first looked up in the saved file, and
     * gets a new empty deque when the file does not have it either.
     */
    method GetChatHistory(chatId: int, file: HistoryFile, now: int) returns (history: seq<Record>)
      requires Valid()
      modifies this
      ensures Valid()
      ensures chatId in histories && history == histories[chatId]
      ensures |history| <= MemoryDepth
      ensures chatId in old(histories) ==> histories == old(histories)
      ensures chatId !in old(histories) ==>
        histories == (var l := Loaded(old(histories), file, now); if chatId in l then l else l[chatId := []])
    {
      if chatId !in histories {
        LoadChatHistories(file, now);
        if chatId !in histories {
          histories := histories[chatId := []];
        }
      }
      history := histories[chatId];
    }

    /** `history.append(record)` on a chat's deque: the oldest record falls out when it is full. */
    method Append(chatId: int, r: Record)
      requires Valid() && chatId in histories
      modifies this
      ensures Valid()
      ensures histories == old(histories)[chatId := LastN(old(histories)[chatId] + [r], MemoryDepth)]
    {
      histories := histories[chatId := LastN(histories[chatId] + [r], MemoryDepth)];
    }
  }

  /** A full deque drops exactly its oldest record when one is appended. */
  lemma AppendToFullDropsOldest(h: seq<Record>, r: Record)
    requires |h| == MemoryDepth
    ensures LastN(h + [r], MemoryDepth) == h[1..] + [r]
  {
  }
}
