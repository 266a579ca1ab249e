/**
 * Handler helpers: the display-language precedence, MarkdownV2 escaping, the compact
 * rendering of a time span, the page arithmetic of search results, and the admin check
 * with its per-chat cache.
 */
module Helpers {
  import opened Wrappers
  import opened Text
  import opened Database
  import opened UserManager
  import opened Localization

  datatype ChatKind = Private | Group | Supergroup | Channel

  datatype Chat = Chat(id: int, kind: ChatKind)

  /** A Telegram user; `languageCode` is the client's language, when it reports one. */
  datatype User = User(id: int, languageCode: Option<string>)

  predicate IsGroupChat(chat: Option<Chat>) {
    chat.Some? && (chat.value.kind == Group || chat.value.kind == Supergroup)
  }

  // ---------------------------------------------------------------------------------
  // get_display_lang

  /** The client language's base code, when it is one the bot supports. */
  function ClientLanguage(user: Option<User>): (r: Option<string>)
    ensures r.Some? ==> r.value in SupportedLanguages
  {
    if user.Some? && user.value.languageCode.Some? && user.value.languageCode.value != ""
       && BeforeDash(user.value.languageCode.value) in SupportedLanguages
    then Some(BeforeDash(user.value.languageCode.value))
    else None
  }

  /**
   * `get_display_lang`: the group's language in a group, then the user's stored language,
   * then the client's language when supported, then the default.
   */
  function GetDisplayLang(users: map<string, UserSettings>, groups: map<string, GroupSettings>,
                          chat: Option<Chat>, user: Option<User>): (lang: string)
    ensures IsGroupChat(chat) && GetGroupLanguage(groups, chat.value.id).Some? ==>
      lang == GetGroupLanguage(groups, chat.value.id).value
    ensures (!IsGroupChat(chat) || GetGroupLanguage(groups, chat.value.id).None?) ==>
      if user.Some? && GetUserLanguage(users, user.value.id).Some? then lang == GetUserLanguage(users, user.value.id).value
      else if ClientLanguage(user).Some? then lang == ClientLanguage(user).value
      else lang == DefaultLanguage
  {
    if IsGroupChat(chat) && GetGroupLanguage(groups, chat.value.id).Some? then
      GetGroupLanguage(groups, chat.value.id).value
    else if user.Some? && GetUserLanguage(users, user.value.id).Some? then
      GetUserLanguage(users, user.value.id).value
    else if ClientLanguage(user).Some? then
      ClientLanguage(user).value
    else DefaultLanguage
  }

  /** With nothing stored for the chat or the user, the language shown is a supported one. */
  lemma DisplayLangWithoutSettingsIsSupported(users: map<string, UserSettings>, groups: map<string, GroupSettings>,
                                              chat: Option<Chat>, user: Option<User>)
    requires chat.Some? ==> IntToString(chat.value.id) !in groups
    requires user.Some? ==> IntToString(user.value.id) !in users
    ensures GetDisplayLang(users, groups, chat, user) in SupportedLanguages
  {
  }

  /** A private chat never reads the group table. */
  lemma PrivateChatIgnoresGroupLanguage(users: map<string, UserSettings>, groups: map<string, GroupSettings>,
                                        groups': map<string, GroupSettings>, chat: Chat, user: Option<User>)
    requires chat.kind == Private
    ensures GetDisplayLang(users, groups, Some(chat), user) == GetDisplayLang(users, groups', Some(chat), user)
  {
  }

  // ---------------------------------------------------------------------------------
  // escape_markdown_v2

  /** The characters `escape_markdown_v2` prefixes with a backslash. */
  const EscapeChars: string := "_*[]()~`>#+-=|{}.!"

  function CountSpecial(s: string): nat {
    if s == [] then 0 else (if s[0] in EscapeChars then 1 else 0) + CountSpecial(s[1..])
  }

  /** Each special character is preceded by a backslash; everything else, backslashes included, is kept. */
  function Escape(s: string): (r: string)
    ensures |r| == |s| + CountSpecial(s)
  {
    if s == [] then []
    else (if s[0] in EscapeChars then ['\\', s[0]] else [s[0]]) + Escape(s[1..])
  }

  /** `escape_markdown_v2`; `None` is an argument that is not a string. */
  function EscapeMarkdownV2(text: Option<string>): (r: string)
    ensures text.None? ==> r == ""
    ensures text.Some? ==> |r| == |text.value| + CountSpecial(text.value)
  {
    if text.None? then "" else Escape(text.value)
  }

  /** How a MarkdownV2 reader takes text apart: a backslash makes the next character literal. */
  function Unescape(s: string): string {
    if s == [] then []
    else if s[0] == '\\' && |s| > 1 then [s[1]] + Unescape(s[2..])
    else [s[0]] + Unescape(s[1..])
  }

  /** Text without backslashes survives escaping: reading it back gives the original. */
  lemma {:induction false} UnescapeOfEscape(s: string)
    requires '\\' !in s
    ensures Unescape(Escape(s)) == s
  {
    if s != [] {
      assert s[0] in s;
      assert forall c :: c in s[1..] ==> c in s;
      UnescapeOfEscape(s[1..]);
      var head := if s[0] in EscapeChars then ['\\', s[0]] else [s[0]];
      var e := head + Escape(s[1..]);
      if s[0] in EscapeChars {
        assert e[0] == '\\' && e[1] == s[0] && e[2..] == Escape(s[1..]);
      } else {
        assert e[0] == s[0] && e[1..] == Escape(s[1..]);
      }
      assert [s[0]] + s[1..] == s;
    }
  }

  /** A backslash in the text is not escaped, so it swallows the escape that follows it. */
  lemma EscapeLosesBackslash()
    ensures Escape("\\a") == "\\a"
    ensures Unescape(Escape("\\a")) == "a" != "\\a"
  {
    assert Escape("\\a") == "\\a" by {
      assert Escape("a") == "a";
    }
    assert Unescape("\\a") == "a" by {
      assert "\\a"[2..] == [];
    }
  }

  /** The evidently intended escape: the backslash itself is escaped too. */
  function EscapeAll(s: string): (r: string)
    ensures |r| == |s| + CountSpecial(s) + multiset(s)['\\']
  {
    if s == [] then []
    else
      assert s == [s[0]] + s[1..];
      (if s[0] in EscapeChars || s[0] == '\\' then ['\\', s[0]] else [s[0]]) + EscapeAll(s[1..])
  }

  /** Every text survives `EscapeAll`. */
  lemma {:induction false} UnescapeOfEscapeAll(s: string)
    ensures Unescape(EscapeAll(s)) == s
  {
    if s != [] {
      UnescapeOfEscapeAll(s[1..]);
      var head := if s[0] in EscapeChars || s[0] == '\\' then ['\\', s[0]] else [s[0]];
      var e := head + EscapeAll(s[1..]);
      if s[0] in EscapeChars || s[0] == '\\' {
        assert e[0] == '\\' && e[1] == s[0] && e[2..] == EscapeAll(s[1..]);
      } else {
        assert e[0] == s[0] && e[1..] == EscapeAll(s[1..]);
      }
      assert [s[0]] + s[1..] == s;
    }
  }

  // ---------------------------------------------------------------------------------
  // _format_time_delta

  /** `int(delta.total_seconds())` for a span in microseconds: truncation toward zero. */
  function WholeSeconds(micros: int): (s: int)
    ensures micros >= 0 ==> s == micros / 1_000_000
    ensures micros >= 0 ==> s * 1_000_000 <= micros < (s + 1) * 1_000_000
    ensures micros < 0 ==> (s - 1) * 1_000_000 < micros <= s * 1_000_000
  {
    if micros >= 0 || micros % 1_000_000 == 0 then micros / 1_000_000 else micros / 1_000_000 + 1
  }

  /** The two `divmod` steps: hours, minutes and seconds, Python's floor division. */
  function Decompose(total: int): (hms: (int, nat, nat))
    ensures total == hms.0 * 3600 + hms.1 * 60 + hms.2
    ensures hms.1 < 60 && hms.2 < 60
  {
    var minutes := total / 60;
    var seconds := total % 60;
    (minutes / 60, minutes % 60, seconds)
  }

  /** The decomposition is the only one with minutes and seconds below 60. */
  lemma DecomposeUnique(total: int, h: int, m: int, s: int)
    requires total == h * 3600 + m * 60 + s && 0 <= m < 60 && 0 <= s < 60
    ensures Decompose(total) == (h, m, s)
  {
    var minutes := h * 60 + m;
    assert total == minutes * 60 + s;
    assert total / 60 == minutes && total % 60 == s by {
      DivModUnique(total, minutes, s);
    }
    DivModUnique(minutes, h, m);
  }

  lemma DivModUnique(a: int, q: int, r: int)
    requires a == q * 60 + r && 0 <= r < 60
    ensures a / 60 == q && a % 60 == r
  {
  }

  /** `_format_time_delta`: `"Hh Mm"` with hours, else `"Mm Ss"` with minutes, else `"Ss"`. */
  function FormatTimeDelta(micros: int): (r: string)
    ensures var (h, m, s) := Decompose(WholeSeconds(micros));
      && (h > 0 ==> r == IntToString(h) + "h " + NatToString(m) + "m")
      && (h <= 0 && m > 0 ==> r == NatToString(m) + "m " + NatToString(s) + "s")
      && (h <= 0 && m == 0 ==> r == NatToString(s) + "s")
  {
    var (h, m, s) := Decompose(WholeSeconds(micros));
    if h > 0 then IntToString(h) + "h " + NatToString(m) + "m"
    else if m > 0 then NatToString(m) + "m " + NatToString(s) + "s"
    else NatToString(s) + "s"
  }

  /** An hour and a half reads "1h 30m"; ninety seconds "1m 30s"; half a minute "30s". */
  lemma FormatTimeDeltaExamples()
    ensures FormatTimeDelta(5400 * 1_000_000) == "1h 30m"
    ensures FormatTimeDelta(90 * 1_000_000) == "1m 30s"
    ensures FormatTimeDelta(30 * 1_000_000 + 999_999) == "30s"
  {
    DecomposeUnique(5400, 1, 30, 0);
    DecomposeUnique(90, 0, 1, 30);
    DecomposeUnique(30, 0, 0, 30);
    assert NatToString(30) == "30" && NatToString(1) == "1";
    assert IntToString(1) == "1";
  }

  // ---------------------------------------------------------------------------------
  // create_search_pagination_keyboard

  /** `SEARCH_RESULTS_PER_PAGE`. */
  const SearchResultsPerPage: int := 5

  /** `(total_items + 4) // 5`: the pages needed for `totalItems` results. */
  function TotalPages(totalItems: int): (n: int)
    ensures totalItems >= 0 ==> n >= 0
    ensures (n - 1) * SearchResultsPerPage < totalItems <= n * SearchResultsPerPage
  {
    (totalItems + SearchResultsPerPage - 1) / SearchResultsPerPage
  }

  datatype Direction = Prev | Next

  /** A page button: its direction and the page its `search_page:<id>:<page>` callback opens. */
  datatype Button = Button(direction: Direction, searchId: string, target: int)

  function CallbackData(b: Button): string {
    "search_page:" + b.searchId + ":" + IntToString(b.target)
  }

  /**
   * `create_search_pagination_keyboard`: no keyboard for a single page; otherwise a
   * "previous" button unless on the first page and a "next" button unless on the last.
   */
  method CreateSearchPaginationKeyboard(searchId: string, currentPage: int, totalItems: int)
    returns (keyboard: Option<seq<Button>>)
    ensures keyboard.None? <==> TotalPages(totalItems) <= 1
    ensures keyboard.Some? ==>
      (Button(Prev, searchId, currentPage - 1) in keyboard.value <==> currentPage > 0)
    ensures keyboard.Some? ==>
      (Button(Next, searchId, currentPage + 1) in keyboard.value <==> currentPage < TotalPages(totalItems) - 1)
    ensures keyboard.Some? ==> 1 <= |keyboard.value| <= 2
    ensures keyboard.Some? && |keyboard.value| == 2 ==>
      keyboard.value[0].direction == Prev && keyboard.value[1].direction == Next
    ensures keyboard.Some? ==> forall b :: b in keyboard.value ==>
      b == Button(Prev, searchId, currentPage - 1) || b == Button(Next, searchId, currentPage + 1)
  {
    var totalPages := (totalItems + SearchResultsPerPage - 1) / SearchResultsPerPage;
    if totalPages <= 1 {
      return None;
    }
    var buttons: seq<Button> := [];
    if currentPage > 0 {
      buttons := buttons + [Button(Prev, searchId, currentPage - 1)];
    }
    if currentPage < totalPages - 1 {
      buttons := buttons + [Button(Next, searchId, currentPage + 1)];
    }
    if buttons == [] {
      return None;
    }
    keyboard := Some(buttons);
  }

  /** A button's callback names the page it opens, and that page reads back from the text. */
  lemma CallbackDataNamesPage(b: Button)
    ensures var d := CallbackData(b);
      var p := IntToString(b.target);
      d == "search_page:" + b.searchId + ":" + p && ParseInt(p) == Some(b.target)
  {
    ParseIntOfIntToString(b.target);
  }

  // ---------------------------------------------------------------------------------
  // _is_admin

  /**
   * The answer of `_is_admin` given the cached pairs: a private chat always; otherwise a
   * cached pair, or membership in the administrator list when it could be fetched.
   */
  function AdminAnswer(cached: set<(int, int)>, chat: Option<Chat>, user: Option<User>, admins: Option<set<int>>)
    : (isAdmin: bool)
    ensures chat.None? || user.None? ==> !isAdmin
    ensures chat.Some? && user.Some? && chat.value.kind == Private ==> isAdmin
    ensures chat.Some? && user.Some? && (chat.value.id, user.value.id) in cached ==> isAdmin
  {
    chat.Some? && user.Some? &&
    (chat.value.kind == Private || (chat.value.id, user.value.id) in cached
     || (admins.Some? && user.value.id in admins.value))
  }

  /** Once a pair is cached it answers `True` without asking Telegram, whatever the list says. */
  lemma CachedAdminStaysAdmin(cached: set<(int, int)>, chat: Chat, user: User, admins: Option<set<int>>)
    requires (chat.id, user.id) in cached
    ensures AdminAnswer(cached, Some(chat), Some(user), admins)
    ensures AdminAnswer(cached, Some(chat), Some(user), None)
  {
  }

  /** The `is_admin_<chat>_<user>` entries of `chat_data`, which are only ever set to `True`. */
  class AdminCache {
    var cached: set<(int, int)>

    constructor ()
      ensures cached == {}
    {
      cached := {};
    }

    /**
     * `_is_admin`. `admins` is the answer of `get_chat_administrators`, or `None` when
     * that call fails; it is consulted only on a cache miss in a non-private chat.
     */
    method IsAdmin(chat: Option<Chat>, user: Option<User>, admins: Option<set<int>>) returns (isAdmin: bool)
      modifies this
      ensures isAdmin == AdminAnswer(old(cached), chat, user, admins)
      ensures old(cached) <= cached
      ensures chat.None? || user.None? ==> !isAdmin && cached == old(cached)
      ensures chat.Some? && user.Some? && chat.value.kind == Private ==> isAdmin && cached == old(cached)
      ensures chat.Some? && user.Some? && chat.value.kind != Private ==>
        var key := (chat.value.id, user.value.id);
        && (key in old(cached) ==> isAdmin && cached == old(cached))
        && (key !in old(cached) ==>
              isAdmin == (admins.Some? && user.value.id in admins.value)
              && cached == (if isAdmin then old(cached) + {key} else old(cached)))
    {
      if chat.None? || user.None? {
        return false;
      }
      if chat.value.kind == Private {
        return true;
      }
      var key := (chat.value.id, user.value.id);
      if key in cached {
        return true;
      }
      if admins.Some? && user.value.id in admins.value {
        cached := cached + {key};
        return true;
      }
      return false;
    }
  }
}
