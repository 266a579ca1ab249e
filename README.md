# Stardust Assistant: a verified model of its core

Stardust Assistant is a Telegram group-management bot. Its core keeps an SQLite
statistics database: saved messages, known groups, per-user and per-group settings,
FAQs, a blacklist, spam warnings, a points ledger, check-ins and a shop. On top of that
database run the rankings (top senders, top groups, top topics over today, this week or
this month), the check-in and redeem commands, and the FAQ manager. The FAQ manager
extracts keywords and finds the closest stored question.

The core also has the moderation handlers:
- a flood check that blacklists a user who sends three messages within three seconds;
- an advertisement filter with escalating warnings;
- the message router that awards activity points.

Around these sit an in-memory chat memory with a time-to-live, the older file-backed
blacklist, the advert keyword list, the API key rotation, and the localization lookup.

The model is split into one module per source file:

- Dafny functions and lemmas model the pure code.
- Classes model the code that changes state, and their methods are proved against
  specification functions:
  - `Database.Store` stands for the SQLite tables.
  - `Memory.ChatMemory`, `BlacklistManager.Blacklist`, `AdBlocker.Blocker` and
    `Messages.Moderator` stand for the module-level dictionaries and sets.
  - `KeyManager.ApiKeyManager` stands for the API key singleton.

Some things outside the code become parameters:
- the wall clock (integer microseconds, with a local and a UTC clock);
- the outcome of a Telegram call (a deletion that fails, whether the bot may restrict
  members, the administrator list);
- the string similarity ratio.

Timestamps read back from storage are `Aware`, `Naive` or `Malformed`. A comparison that
would raise in Python takes the `except` branch the source has.

Supporting modules:
- `Wrappers`: `Option`.
- `Text`: Python's `strip`, `lower`, `isspace`, `isalpha`, `str(int)` and `int(str)`, on `seq<char>`.
- `Time`: the proleptic Gregorian calendar of `datetime`.
- `Tally`: `GROUP BY … ORDER BY count DESC LIMIT n`, `Counter.most_common` and SQL's `RANK()`.

## Model

| member | source | states |
|---|---|---|
| AdBlocker.NormalizeKeyword | bot/ad_blocker.py:22 | a keyword is its stripped line in lower case: same length as the stripped line, no upper-case letter |
| AdBlocker.KeywordsOf | bot/ad_blocker.py:22 | the keyword set holds exactly the normalised forms of the non-blank lines, and none is empty |
| AdBlocker.SpamIffOccurs | bot/ad_blocker.py:35-49 | a text is spam exactly when it is non-empty and some keyword occurs at some offset of its lowercased form |
| AdBlocker.SpamMonotone | bot/ad_blocker.py:45-47 | adding keywords never un-flags a text |
| AdBlocker.SpamIgnoresCase | bot/ad_blocker.py:43 | a text is flagged exactly when its lowercase form is |
| AdBlocker.ToLowerIsLower | bot/ad_blocker.py:22 | lower-casing leaves no upper-case letter, so loaded keywords compare against lowered text |
| AdBlocker.Blocker.constructor | bot/ad_blocker.py:13 | the keyword set starts empty |
| AdBlocker.Blocker.LoadBlockedKeywords | bot/ad_blocker.py:15-33 | a readable file replaces the set by its normalised non-blank lines; a missing or unreadable file leaves it empty |
| AdBlocker.Blocker.IsSpam | bot/ad_blocker.py:35-49 | the keyword loop returns exactly the spam predicate: false for empty text or no keywords, otherwise whether some keyword occurs |
| BlacklistManager.EntryOf | bot/blacklist_manager.py:38-44 | a saved pair is kept exactly when its expiration parses as aware, lies after now and its key is an integer; it is then (key, expiration) |
| BlacklistManager.Accepted | bot/blacklist_manager.py:38-44 | what each saved pair contributes, pair by pair, in file order |
| BlacklistManager.BuildMembers | bot/blacklist_manager.py:42 | the built map holds a user exactly when some accepted pair names them, with the value of one such pair |
| BlacklistManager.LoadedMembers | bot/blacklist_manager.py:36-45 | after loading, a user is listed exactly when some saved pair for them is accepted, and every listed expiration lies after the load time |
| BlacklistManager.Blacklist.constructor | bot/blacklist_manager.py:13 | the blacklist starts empty |
| BlacklistManager.Blacklist.LoadBlacklist | bot/blacklist_manager.py:26-49 | a missing file changes nothing; an unreadable one empties the list; otherwise the list becomes the accepted pairs, later ones overwriting earlier ones |
| BlacklistManager.Blacklist.AddToBlacklist | bot/blacklist_manager.py:51-56 | the user's expiration becomes now plus the duration, replacing any earlier one, and nobody else changes |
| BlacklistManager.Blacklist.RemoveFromBlacklist | bot/blacklist_manager.py:58-65 | the result is true exactly when the user was listed, and exactly that user is removed |
| BlacklistManager.Blacklist.GetUserBlacklistExpiration | bot/blacklist_manager.py:67-82 | an unlisted user gives None; an expired entry gives None and is removed; an active one is returned and kept |
| Commands.CheckinResult | bot/handlers/commands.py:329-347 | private chat and check-in disabled leave the state unchanged; the user checks in exactly when that day's row for the member is absent; a check-in adds that row and awards 10 points with no cooldown, and the total reported is the new balance |
| Commands.CheckinOncePerDay | bot/handlers/commands.py:341-344 | a second check-in on the same UTC day is answered "already checked in" and changes nothing |
| Commands.CheckinAwardsExactlyTen | bot/handlers/commands.py:346 | a check-in raises the member's balance by exactly 10 |
| Commands.CheckinOpensNextDay | bot/handlers/commands.py:341-346 | after a check-in, a later UTC day without a row still checks in |
| Commands.Checkin | bot/handlers/commands.py:329-347 | the outcome, check-in log and ledger the handler leaves are the ones CheckinResult gives for the old tables |
| Commands.ItemIdArgument | bot/handlers/commands.py:435-439 | no argument gives None; otherwise the item id is the integer parse of the first argument |
| Commands.RedeemResult | bot/handlers/commands.py:426-458 | every outcome but Redeemed leaves points and items unchanged; Redeemed happens exactly in a group, with a parsed id naming an item, a balance covering its cost, stock not 0 and storage that does not fail; it then debits the cost and takes one from limited stock |
| Commands.PointsCheckedBeforeStock | bot/handlers/commands.py:446-453 | a balance below the cost reports "not enough points" even when the item is also out of stock |
| Commands.BadArgumentGetsUsage | bot/handlers/commands.py:435-439 | a missing or non-integer argument gets the usage reply and changes nothing |
| Commands.RedeemNeverOverdraws | bot/handlers/commands.py:446-458 | a successful redeem never leaves a negative balance, and a member with a ledger row ends at the old balance minus the cost |
| Commands.RedeemStock | bot/statistics.py:751-760 | a redeemed item with limited stock loses exactly one unit; one with unlimited stock keeps it |
| Commands.Redeem | bot/handlers/commands.py:426-458 | the outcome, ledger and items the handler leaves are the ones RedeemResult gives for the old tables |
| Database.KnownChatUpsert | bot/statistics.py:162-188 | ids not starting with -100 and empty titles change nothing; no other chat's row ever changes and at most this chat is added |
| Database.KnownChatTitleIsLatest | bot/statistics.py:170-183 | after an update of an eligible chat, its stored title is the new title |
| Database.KnownChatFirstWriterWins | bot/statistics.py:174-176 | once an inviter (and date added) are recorded, later updates keep them |
| Database.KnownChatRecordsInviter | bot/statistics.py:169-177 | the first update that names a (non-zero) inviter for an eligible chat records that inviter |
| Database.UserSettingsUpsert | bot/statistics.py:519-529 | no fields changes nothing; otherwise the user's row exists afterwards and no other user's row changes |
| Database.GroupSettingsUpsert | bot/statistics.py:547-557 | no fields changes nothing; otherwise the group's row exists afterwards and no other group's row changes |
| Database.SetRankingKeepsLanguage | bot/statistics.py:519-529 | setting ranking participation sets that flag and keeps the user's language |
| Database.OptOuts | bot/statistics.py:531-537 | the opt-out list is exactly the users whose row has ranking disabled |
| Database.OptOutToggle | bot/statistics.py:531-537 | after setting the flag, the user is an opt-out exactly when it was set to false, and no one else's status changes |
| Database.FaqsValidSnoc | bot/statistics.py:90-97 | appending a row with the next id and a new (chat, question) keeps ids increasing and questions unique per chat |
| Database.FaqsForChat | bot/statistics.py:582-588 | a chat's FAQ list holds exactly the rows of that chat |
| Database.FaqsForChatOrdered | bot/statistics.py:585 | a chat's FAQ list is in ascending id order |
| Database.FaqsWithoutId | bot/statistics.py:570-580 | deleting by id keeps exactly the rows with another id, and is the identity when no row has that id |
| Database.FaqsWithoutIdValid | bot/statistics.py:570-580 | deleting a row keeps the FAQ table's invariants |
| Database.AwardResult | bot/statistics.py:653-692 | the award is made exactly when the cooldown check passes, and the total is the old balance plus the delta when it is made |
| Database.LedgerAfterAward | bot/statistics.py:653-692 | no other member's ledger row changes |
| Database.AwardRejectedWithinCooldown | bot/statistics.py:681-686 | within the cooldown of an aware last update the award is refused and the ledger is unchanged |
| Database.FirstAwardBypassesCooldown | bot/statistics.py:664-668 | a member without a row gets the award; the naive 1970 stamp makes the comparison raise, so the cooldown is skipped |
| Database.ZeroCooldownAlwaysAwards | bot/statistics.py:680 | a cooldown of 0 always awards and stamps the row with now |
| Database.CooldownSpacesAwards | bot/statistics.py:653-692 | after an award, a second award within the cooldown is refused |
| Database.LedgerAfterRedeem | bot/statistics.py:755 | redeeming debits the cost from the member's row only, and keeps the table's keys |
| Database.ItemsAfterRedeem | bot/statistics.py:757-758 | stock -1 is untouched; any other stock of that item drops by one; other items do not change |
| Database.RedeemKeepsStockAboveUnlimited | bot/statistics.py:757-758 | redeeming an item whose stock is -1 or at least 1 leaves stock that is -1 or not negative |
| Database.Store.constructor | bot/statistics.py:35-158 | all tables start empty and the invariants hold |
| Database.Store.UpdateKnownChat | bot/statistics.py:162-188 | the known-chats table becomes KnownChatUpsert of the old one |
| Database.Store.SaveMessage | bot/statistics.py:223-236 | the chat is upserted first, then exactly one message row is appended, with missing title, username and sender username stored as "" |
| Database.Store.UpdateUserSetting | bot/statistics.py:519-529 | the user-settings table becomes UserSettingsUpsert of the old one |
| Database.Store.UpdateGroupSetting | bot/statistics.py:547-557 | the group-settings table becomes GroupSettingsUpsert of the old one |
| Database.Store.AddFaq | bot/statistics.py:559-568 | the insert succeeds exactly when the chat has no FAQ with that question; it then appends the row with the next id, and otherwise nothing changes |
| Database.Store.DeleteFaq | bot/statistics.py:570-580 | the result is true exactly when a row had that id, and the table becomes FaqsWithoutId |
| Database.Store.AddToBlacklist | bot/statistics.py:598-603 | the user's expiration is inserted or replaced |
| Database.Store.RemoveFromBlacklist | bot/statistics.py:605-611 | the result is true exactly when a row existed, and exactly that row is deleted |
| Database.Store.ClearExpiredBlacklistEntries | bot/statistics.py:613-622 | exactly the aware expirations before now are deleted, and the count reported is the number of rows removed |
| Database.Store.UpdateUserWarning | bot/statistics.py:632-637 | the member's warning row is inserted or replaced by the new count and stamp |
| Database.Store.AddPoints | bot/statistics.py:653-692 | the award and the new ledger are AwardResult and LedgerAfterAward of the old ledger |
| Database.Store.RecordCheckin | bot/statistics.py:704-711 | the day's row is added, and the insert is new exactly when the row was absent |
| Database.Store.ShopItemById | bot/statistics.py:725-731 | the lookup finds an item exactly when its id is in the table, and returns that row |
| Database.Store.AddShopItem | bot/statistics.py:733-749 | the insert succeeds exactly when no item has the name; it then adds the active item under the next id, and otherwise nothing changes |
| Database.Store.RedeemItem | bot/statistics.py:751-768 | a storage failure rolls back and reports false; otherwise the points and stock become LedgerAfterRedeem and ItemsAfterRedeem |
| FaqManager.RemovePunctuation | bot/faq_manager.py:29 | only word characters and whitespace of the input remain |
| FaqManager.RemovePunctuationKeeps | bot/faq_manager.py:29 | text already made of word characters and whitespace is left unchanged |
| FaqManager.TokenLength | bot/faq_manager.py:31 | the first token is the longest space-free prefix |
| FaqManager.SplitTokens | bot/faq_manager.py:31 | every word of `split()` is non-empty, space-free and a piece of the text |
| FaqManager.SplitOfJoin | bot/faq_manager.py:31 | splitting the space-joined words gives those words back |
| FaqManager.ExtractKeywordsShape | bot/faq_manager.py:24-31 | the keywords are lower-case word characters separated by single spaces, with no space at either end |
| FaqManager.ExtractKeywordsIdempotent | bot/faq_manager.py:24-31 | extracting keywords from extracted keywords changes nothing |
| FaqManager.AddFaq | bot/faq_manager.py:33-47 | adding succeeds exactly when the chat has no FAQ with that question; the stored keywords are ExtractKeywords of the question |
| FaqManager.ForChatWithoutId | bot/faq_manager.py:49-73 | deleting by id and then listing a chat equals listing and then deleting by id |
| FaqManager.DeleteRemovesListedFaq | bot/faq_manager.py:54-69 | deleting the row at a listed position removes exactly that position from the chat's list |
| FaqManager.DeleteKeepsOtherChats | bot/faq_manager.py:54-69 | deleting a chat's FAQ leaves every other chat's list unchanged |
| FaqManager.DeleteFaq | bot/faq_manager.py:49-73 | an index outside the chat's list gives None and changes nothing; otherwise the listed question is returned and only that row is deleted |
| FaqManager.BestMatchSpec | bot/faq_manager.py:96-112 | the loop's result is the answer of the first FAQ with the highest score when that score is above 0, and None with highest 0 when no score is |
| FaqManager.FindSimilar | bot/faq_manager.py:91-101 | no FAQs or an empty question give None |
| FaqManager.FindSimilarSpec | bot/faq_manager.py:85-118 | an answer is returned exactly when the question is non-empty and some FAQ scores at least 0.75, and it is the first best-scoring FAQ's answer |
| FaqManager.FindSimilarQuestion | bot/faq_manager.py:85-118 | the loop over the chat's FAQs returns FindSimilar of that list |
| Helpers.ClientLanguage | bot/handlers/helpers.py:46-49 | a client language is used only when its part before '-' is supported |
| Helpers.GetDisplayLang | bot/handlers/helpers.py:25-51 | a group's stored language wins in group chats; otherwise the user's stored language, then the client language, then the default |
| Helpers.DisplayLangWithoutSettingsIsSupported | bot/handlers/helpers.py:41-51 | without stored settings the display language is always a supported one |
| Helpers.PrivateChatIgnoresGroupLanguage | bot/handlers/helpers.py:36-39 | in a private chat the group settings do not matter |
| Helpers.Escape | bot/handlers/helpers.py:55-56 | exactly one backslash is added for each special character |
| Helpers.EscapeMarkdownV2 | bot/handlers/helpers.py:53-56 | an argument that is not a string gives ""; otherwise the result grows by one character per special character |
| Helpers.UnescapeOfEscape | bot/handlers/helpers.py:53-56 | text without backslashes reads back unchanged after escaping |
| Helpers.EscapeLosesBackslash | bot/handlers/helpers.py:55 | as written: "\a" is not changed by escaping and reads back as "a" |
| Helpers.EscapeAll | bot/handlers/helpers.py:55-56 | corrected: backslashes are escaped as well |
| Helpers.UnescapeOfEscapeAll | bot/handlers/helpers.py:53-56 | corrected: every text reads back unchanged after escaping |
| Helpers.WholeSeconds | bot/handlers/helpers.py:59 | `int(total_seconds())` truncates toward zero, for negative durations too |
| Helpers.Decompose | bot/handlers/helpers.py:60-61 | the parts satisfy total = h*3600 + m*60 + s with minutes and seconds in 0..59 |
| Helpers.DecomposeUnique | bot/handlers/helpers.py:60-61 | any such decomposition is the one the two divmods give |
| Helpers.FormatTimeDelta | bot/handlers/helpers.py:58-64 | hours and minutes when there are hours; minutes and seconds when there are minutes; otherwise seconds |
| Helpers.FormatTimeDeltaExamples | bot/handlers/helpers.py:58-64 | 5400 s gives "1h 30m", 90 s gives "1m 30s", and 30.999999 s gives "30s" |
| Helpers.TotalPages | bot/handlers/helpers.py:67 | the page count is the ceiling of items over 5 |
| Helpers.CreateSearchPaginationKeyboard | bot/handlers/helpers.py:66-82 | there is no keyboard exactly when there is at most one page; otherwise one or two buttons: a previous button exactly when not on the first page and a next button exactly when not on the last, previous first |
| Helpers.CallbackDataNamesPage | bot/handlers/helpers.py:76-78 | a button's callback data is "search_page:" + id + ":" + target page |
| Helpers.AdminAnswer | bot/handlers/helpers.py:84-105 | no chat or user gives false; a private chat gives true; a cached pair gives true; otherwise membership in the fetched administrators, false when they cannot be fetched |
| Helpers.CachedAdminStaysAdmin | bot/handlers/helpers.py:96-98 | a cached administrator stays one even when the administrator list cannot be fetched |
| Helpers.AdminCache.constructor | bot/handlers/helpers.py:96 | the cache starts empty |
| Helpers.AdminCache.IsAdmin | bot/handlers/helpers.py:84-105 | the answer is AdminAnswer of the old cache; only a fetched positive answer in a group adds the pair, and the cache never shrinks |
| KeyManager.KeyAt | bot/key_manager.py:30-34 | there is a key exactly when the position is before the end of the list, and it is the key at that position |
| KeyManager.ExhaustedStaysExhausted | bot/key_manager.py:32-34 | once no key is found at a position, none is found at any later position |
| KeyManager.SwitchesWalkKeys | bot/key_manager.py:36-46 | successive switches return the keys after the current one in order, and after the first None every result is None |
| KeyManager.ApiKeyManager.constructor | bot/key_manager.py:20-24 | the first initialisation takes the configured keys and starts at position 0 |
| KeyManager.ApiKeyManager.SwitchToNextKey | bot/key_manager.py:36-46 | the position moves up by one, the keys do not change, and the key at the new position is returned |
| KeyManager.KeyManagerRegistry.constructor | bot/key_manager.py:13 | no instance exists yet |
| KeyManager.KeyManagerRegistry.Obtain | bot/key_manager.py:15-24 | the first call builds a fresh manager; every later one returns the same manager with its keys and position untouched |
| Localization.BeforeDash | bot/localization.py:488 | the result is the prefix before the first '-', or the whole code when there is none |
| Localization.NormalizeLanguage | bot/localization.py:488-490 | the language used is always supported; it is the code or its base before '-' when those are supported, and the default otherwise |
| Localization.Template | bot/localization.py:492-494 | the template comes from the language's table, and falls back to the default table when that table or key is missing |
| Localization.FormatWithoutBraces | bot/localization.py:499 | a template without braces formats to itself |
| Localization.FormatOneField | bot/localization.py:499 | a single "{name}" placeholder formats to its argument |
| Localization.GetText | bot/localization.py:487-502 | a missing key gives "<key>"; "ai_sys" keys and calls without arguments return the template; otherwise the template is formatted, and a missing field returns it unformatted |
| Localization.RegionalCodeUsesBaseLanguage | bot/localization.py:488 | "en-US" reads the English table |
| Localization.UnsupportedLanguageUsesDefault | bot/localization.py:489-490 | an unsupported code without '-' reads the default table |
| Memory.NextWarningCount | bot/memory.py:119-138 | no row or an unreadable stamp gives 1; a last warning more than 24 h ago gives 1; otherwise the count after the stored one |
| Memory.RecordAndGetWarningLevel | bot/memory.py:119-142 | the level is NextWarningCount of the old row, and the row becomes that level stamped with now |
| Memory.EscalationCounts | bot/memory.py:128-135 | warnings each within 24 h of the previous one count up 1, 2, 3, … |
| Memory.EscalationFrom | bot/memory.py:128-135 | closely spaced warnings after a stored row keep counting up from it |
| Memory.QuietDayResets | bot/memory.py:132-133 | a warning more than 24 h after the last one starts again at 1 |
| Memory.Fresh | bot/memory.py:50-65 | exactly the records without a timestamp, with an unparsable one, or newer than the cutoff are kept |
| Memory.FreshOfConcat | bot/memory.py:55-64 | filtering a concatenation is the concatenation of the filtered parts, so order is kept |
| Memory.FilterExpiredHistory | bot/memory.py:50-65 | the loop keeps exactly Fresh with the cutoff 24 h before now |
| Memory.LastN | bot/memory.py:91 | a deque with maxlen keeps the newest n items, and everything when there are at most n |
| Memory.LoadEntriesKeeps | bot/memory.py:81-93 | loading keeps every history within 40 entries, and every chat loaded before stays loaded |
| Memory.LoadEntriesSkipsExpired | bot/memory.py:89-91 | a chat whose saved records have all expired is not loaded |
| Memory.ChatMemory.constructor | bot/memory.py:32 | no chat history is loaded yet |
| Memory.ChatMemory.LoadChatHistories | bot/memory.py:81-93 | the histories become Loaded of the old ones and the file |
| Memory.ChatMemory.GetChatHistory | bot/memory.py:36-41 | the chat has a history of at most 40 entries afterwards; a chat already present is returned with nothing reloaded; a missing chat reloads the histories from the file and gets an empty history if the file has none |
| Memory.ChatMemory.Append | bot/memory.py:91 | appending keeps the newest 40 entries of the history plus the new record |
| Memory.AppendToFullDropsOldest | bot/memory.py:91 | appending to a full history drops exactly the oldest entry |
| Messages.GateOf | bot/handlers/messages.py:37-62 | a blacklist entry is Active exactly when it parses and lies after now, Expired when it parses and does not, and Unparsable when it does not parse |
| Messages.WithoutUser | bot/handlers/messages.py:57-59 | exactly the notifications for other users remain |
| Messages.Push | bot/handlers/messages.py:26-65 | the per-user deque holds at most three timestamps and appends while not full |
| Messages.PushKeepsNewest | bot/handlers/messages.py:26-65 | the deque keeps the newest three timestamps, the new one last |
| Messages.TwoMessagesNeverBurst | bot/handlers/messages.py:67 | the first two messages never trigger the flood check |
| Messages.ThirdQuickMessageBursts | bot/handlers/messages.py:67-70 | a message less than 3 s after the one two before it triggers the flood check |
| Messages.RecordStepOutcome | bot/handlers/messages.py:64-98 | a burst blacklists the user for an hour, clears their deque and stops; otherwise the deque is updated and nothing else changes |
| Messages.RecordStepBounded | bot/handlers/messages.py:26 | the record step keeps every deque within three entries |
| Messages.SpamCheckNeedsUserAndDate | bot/handlers/messages.py:31-32 | without a sender or a date the check changes nothing and does not stop |
| Messages.ActiveEntryStops | bot/handlers/messages.py:43-54 | an active entry stops the update; a private chat is always told the remaining time; a group is told once per (chat, user) |
| Messages.GroupNoticeAtMostOnce | bot/handlers/messages.py:48-51 | a second message while muted in a group is not announced again |
| Messages.StaleEntryRemoved | bot/handlers/messages.py:55-62 | an expired or unreadable entry is deleted; for an expired one the user's notifications are forgotten too, then the flood check runs |
| Messages.BurstBlacklistsForAnHour | bot/handlers/messages.py:64-98 | for an unlisted user, a burst blacklists them for 3600 s and stops; otherwise the blacklist is unchanged |
| Messages.SpamCheckKeepsBuffersBounded | bot/handlers/messages.py:26 | the whole check keeps every deque within three entries |
| Messages.HasUrlExamples | bot/handlers/messages.py:111 | "see https://t.me" matches the link pattern, and "http:// x" does not match at its start |
| Messages.WarningReply | bot/handlers/messages.py:118-142 | level 1 and level 2 give the first and second warnings; a higher level mutes exactly when the bot may restrict members |
| Messages.ThirdOffenceMutes | bot/handlers/messages.py:124-140 | three close offences give the final warning and a mute when the bot may restrict, and no reply otherwise |
| Messages.Moderator.constructor | bot/handlers/messages.py:26-27 | no timestamps and no notifications yet |
| Messages.Moderator.SpamCheck | bot/handlers/messages.py:30-98 | the deques, notifications, blacklist, stop and notice are those of SpamCheckStep on the old state |
| Messages.Moderator.RemoveUserNotifications | bot/handlers/messages.py:57-59 | the loop removes exactly the user's notifications |
| Messages.Moderator.RecordMessage | bot/handlers/messages.py:64-98 | the deque, blacklist and stop are those of RecordStep on the old state |
| Messages.MessageFilter | bot/handlers/messages.py:100-145 | the handler stops exactly for a flagged text from a non-admin in a group with the filter on; the administrator cache changes only as the admin check caches a fetched admin; a failed deletion changes nothing else; otherwise the warning row is advanced and the reply follows WarningReply and a mute blacklists for an hour |
| Messages.FilterScope | bot/handlers/messages.py:105-108 | private chats, channels and groups with the filter off are not filtered; a group without settings is |
| Messages.SearchQueryFirstMatch | bot/handlers/messages.py:252-259 | the query comes from the first keyword that leaves a non-empty remainder, and there is none when no keyword does |
| Messages.Dispatch | bot/handlers/messages.py:196-259 | only a missing or empty text is ignored; a command keyword is the stripped text itself; a conversation is never a command keyword |
| Messages.FirstSearchQuery | bot/handlers/messages.py:252-259 | the loop over the search keywords returns SearchQuery |
| Messages.BareSearchKeywordSearchesRemainder | bot/handlers/messages.py:252-259 | the bare text "搜索" searches for "索", because the shorter keyword "搜" matches after the full one leaves nothing |
| Messages.BareSearchQuery | bot/handlers/messages.py:252-259 | the search keywords turn "搜索" into the query "索" |
| Messages.ChatHandler | bot/handlers/messages.py:192-263 | the route is Dispatch; every message but the private search follow-up is saved, stripped, with "Private Chat" as a private chat's title; a point is awarded with a 1 s cooldown exactly for a conversation of more than five characters from a sender outside a private chat |
| Messages.QuickMessagesEarnOnce | bot/handlers/messages.py:262-263 | two qualifying messages less than a second apart earn at most one point |
| Periods.ParsePeriod | bot/statistics.py:276-284 | only "today", "week" and "month" are periods |
| Periods.StartTime | bot/statistics.py:276-284 | a start exists exactly for the three periods, and it is a midnight no later than now |
| Periods.WeekStart | bot/statistics.py:281 | the week starts at the midnight of the Monday of this week |
| Periods.MidnightFacts | bot/statistics.py:279-283 | today's midnight and the first of the month are midnights no later than now |
| Periods.TodayWindow | bot/statistics.py:278-279 | "today" starts at the midnight of the current day, and now lies within the day after it |
| Periods.WeekWindow | bot/statistics.py:280-281 | "week" starts at a midnight that falls on a Monday, and now lies within the seven days after it |
| Periods.MonthWindow | bot/statistics.py:282-283 | "month" starts at midnight on day 1 of the current month, and now lies within the 31 days after it |
| Periods.WindowsNest | bot/statistics.py:276-284 | the week and month windows begin no later than today's |
| Ranking.ExclusionList | bot/statistics.py:324-326 | the exclusions are exactly the configured blacklist plus the opt-outs |
| Ranking.Column | bot/statistics.py:355-469 | the grouped column has at most one key per message |
| Ranking.ColumnCounts | bot/statistics.py:368 | a key's multiplicity in the column is the number of qualifying rows with that key |
| Ranking.ColumnMembers | bot/statistics.py:362-368 | a key appears exactly when some qualifying message has it |
| Ranking.SendersAreEligible | bot/statistics.py:362-366 | ranked senders are never group ids and never excluded |
| Ranking.UserRankInChat | bot/statistics.py:355-373 | an unknown period gives (0, 0); the rank is 0 exactly when the count is; group ids and excluded users get (0, 0) |
| Ranking.UserRankInChatCount | bot/statistics.py:368-373 | the count is the user's qualifying messages in the chat since the period start |
| Ranking.ChatRankIsCompetitionRank | bot/statistics.py:370 | equal counts share a rank, and a higher count ranks strictly better |
| Ranking.UserGlobalStats | bot/statistics.py:375-396 | a user is ranked exactly when they are not a group id and have sent a message |
| Ranking.GlobalRankedIffSent | bot/statistics.py:378-394 | the user's own id is taken off the exclusions, so they are ranked exactly when they are in the column |
| Ranking.UserGlobalTotal | bot/statistics.py:391-393 | the total counts every message of the user, with no exclusion applied |
| Ranking.OptedOutStillRankedGlobally | bot/statistics.py:379 | an opted-out user with a message still gets a global rank |
| Ranking.Newest | bot/statistics.py:411 | the row found is a message of the table that the inner query admits and that has the key |
| Ranking.NewestIsLatest | bot/statistics.py:412 | it exists exactly when the key has rows, and has their latest timestamp |
| Ranking.Matches | bot/statistics.py:411 | a message matches exactly when it is in the whole unfiltered table with the key and the timestamp, and it matches as often as it is stored |
| Ranking.JoinKeepsTies | bot/statistics.py:411 | an entry is joined once per stored copy of every message with its key at its latest timestamp, so ties give several rows |
| Ranking.BoardFacts | bot/statistics.py:411 | every leaderboard entry is a key with admitted rows, counted exactly, in non-increasing order, and every admitted key has an entry |
| Ranking.LimitedJoinFacts | bot/statistics.py:411 | every row returned joins its entry at that key's latest timestamp with the key's exact count, and counts never increase along the rows |
| Ranking.JoinIsTop | bot/statistics.py:411 | a key with admitted rows that no returned row joins has no larger count than any returned row |
| Ranking.JoinShowsTies | bot/statistics.py:411 | every message of an admitted key stamped at that key's latest admitted time is joined to the key's entry and exact count |
| Ranking.TopUsers | bot/statistics.py:398-436 | an unknown period gives []; at most limit rows |
| Ranking.TopUsersSpec | bot/statistics.py:398-436 | the rows are in non-increasing count order; each count is that user's admitted messages; no group id or excluded user appears; the names are those of one of the user's messages in any chat stamped at the user's latest admitted time |
| Ranking.TopUsersAreTop | bot/statistics.py:411-412 | a user with admitted messages and no row has no more messages than any user shown |
| Ranking.TopUsersShowTies | bot/statistics.py:411-412 | below the limit every message of an admitted user stamped at that user's latest admitted time is shown with the user's count, so a tie repeats the user |
| Ranking.TopGroups | bot/statistics.py:438-469 | an unknown period gives []; at most limit rows |
| Ranking.TopGroupsSpec | bot/statistics.py:438-469 | the rows are in non-increasing count order; each shows the title and username of a message of a supergroup stamped at that group's latest time in the window with the group's message count |
| Ranking.GroupKeysAreGroups | bot/statistics.py:456 | only ids starting with -100 are counted as groups |
| Ranking.ValidTopicRules | bot/statistics.py:471-475 | fewer than two characters, a leading '/' or no letter rejects; a valid topic has a letter and a non-space first character |
| Ranking.ValidTopicOfClean | bot/statistics.py:472-473 | on text with no whitespace the test is the rule on the text itself |
| Ranking.ValidTopicAccepted | bot/statistics.py:471-475 | "cat" is a topic |
| Ranking.ValidTopicRejectsCommand | bot/statistics.py:473 | "/start" is not a topic |
| Ranking.ValidTopicRejectsDigits | bot/statistics.py:473 | "12345" is not a topic |
| Ranking.RepetitionRejected | bot/statistics.py:473 | more than four characters drawn from two letters is not a topic |
| Ranking.ValidTopicRejectsRepetition | bot/statistics.py:473 | "ababab" is not a topic |
| Ranking.FetchTexts | bot/statistics.py:477-495 | an unknown period gives []; every text kept is non-empty and a valid topic |
| Ranking.FetchTextsCount | bot/statistics.py:477-495 | a valid topic occurs as often as the eligible messages with exactly that text |
| Ranking.TopTopics | bot/statistics.py:497-505 | no texts or a non-positive limit give []; never more rows than texts |
| Ranking.TopTopicsSpec | bot/statistics.py:497-505 | the rows name distinct valid topics in non-increasing count order, each with its number of occurrences among the fetched texts |
| Ranking.TopTopicsAreTop | bot/statistics.py:497-505 | a text left out of the rows occurs no more often than the last row |
| Ranking.MostCommonIsTop | bot/statistics.py:500 | `most_common` drops no text that is more common than one it keeps |
| Tally.Filter | bot/statistics.py:494 | filtering keeps exactly the matching elements with their multiplicities |
| Tally.MapSeq | bot/statistics.py:416 | mapping applies the function at each position |
| Tally.Distinct | bot/statistics.py:368 | the distinct keys are those of the input, with no repetition |
| Tally.Count | bot/statistics.py:368 | GROUP BY gives one entry per distinct key, with its multiplicity |
| Tally.Keys | bot/statistics.py:416 | the keys of the entries, position by position |
| Tally.InsertDesc | bot/statistics.py:368 | insertion keeps the order by count descending and adds exactly the new entry |
| Tally.SortDesc | bot/statistics.py:368 | ORDER BY count DESC gives a permutation in non-increasing count order |
| Tally.MostCommon | bot/statistics.py:500 | `most_common(n)` is empty for n of 0 or less, and otherwise has min(n, number of distinct texts) entries |
| Tally.Limit | bot/statistics.py:464 | LIMIT n keeps the first min(n and the number of rows) rows and a negative limit keeps them all |
| Tally.LeaderboardSpec | bot/statistics.py:368 | the leaderboard holds each distinct key once, with its true count, in non-increasing count order |
| Tally.LeaderboardPrefixIsTop | bot/statistics.py:413-415 | a key left out of a prefix counts no more than the prefix's last entry |
| Tally.RankSentinel | bot/statistics.py:373 | rank 0 stands exactly for a key without rows |
| Tally.RankTies | bot/statistics.py:370 | RANK() gives equal counts the same rank |
| Tally.RankStrictlyBetter | bot/statistics.py:370 | RANK() ranks a strictly higher count strictly better |
| Tally.RankOfMaximum | bot/statistics.py:370 | a key with the highest count has rank 1 |
| Tally.RankAgreesWithLeaderboard | bot/statistics.py:370 | the i-th leaderboard key has rank at most i + 1 |
| Text.LowerChar | bot/ad_blocker.py:43 | lower-casing maps A-Z to a-z, changes neither whether a character is whitespace nor whether it is a word character, and leaves characters outside A-Z and the Latin-1 capitals alone |
| Text.ToLower | bot/ad_blocker.py:43 | `lower()` works character by character and keeps the length |
| Text.TrimLeft | bot/handlers/messages.py:208 | the leading whitespace is removed, and nothing else |
| Text.TrimRight | bot/handlers/messages.py:208 | the trailing whitespace is removed, and nothing else |
| Text.Strip | bot/handlers/messages.py:208 | `strip()` leaves no whitespace at either end, is empty exactly for all-whitespace text, and keeps text without whitespace whole |
| Text.ParseInt | bot/blacklist_manager.py:42 | `int()` of a string succeeds only on text that is not blank |
| Text.ParseIntOfIntToString | bot/memory.py:75-88 | reading back `str(id)` gives the id, so a saved chat id loads as the same id |
| Text.ParseIntOfNatToString | bot/blacklist_manager.py:42 | reading back the decimal form of a natural number gives the number |
| Text.IntToString | bot/statistics.py:163 | `str(id)` is non-empty and starts with '-' exactly for negative ids |
| UserManager.Truthy | bot/user_manager.py:32-33 | a stored language counts only when it is present and not empty |
| UserManager.GetUserLanguage | bot/user_manager.py:26-34 | a user without a row has no language; otherwise their stored language when it is truthy |
| UserManager.IsUserRankingEnabled | bot/user_manager.py:36-45 | a user without a row takes part; otherwise the stored flag |
| UserManager.GetGroupLanguage | bot/user_manager.py:78-85 | a group without a row has no language; otherwise its stored language when it is truthy |
| UserManager.IsAutoChatOn | bot/user_manager.py:95-102 | off without a row; otherwise the stored flag |
| UserManager.IsSpamFilterOn | bot/user_manager.py:111-122 | on without a row; otherwise the stored flag |
| UserManager.IsGroupCheckinOn | bot/user_manager.py:133-138 | off without a row; otherwise the stored flag |
| UserManager.GettersMatchRowDefaults | bot/statistics.py:70-86 | the defaults the getters use for a missing row are the schema's column defaults |
| UserManager.SetUserLanguage | bot/user_manager.py:19-24 | the user's row is upserted with the language |
| UserManager.ToggleUserRankingParticipation | bot/user_manager.py:47-57 | the new status is the opposite of the current one, and it is stored |
| UserManager.RankingToggleFlips | bot/user_manager.py:47-57 | after the toggle, reading the status gives the opposite of before |
| UserManager.SetGroupLanguage | bot/user_manager.py:71-76 | the group's row is upserted with the language |
| UserManager.SetAutoChatMode | bot/user_manager.py:87-93 | the group's row is upserted with the auto-chat flag |
| UserManager.SetSpamFilterMode | bot/user_manager.py:104-109 | the group's row is upserted with the spam-filter flag |
| UserManager.ToggleGroupCheckin | bot/user_manager.py:124-131 | the new status is the opposite of the current one, and it is stored |
| UserManager.SetGroupFieldKeepsOthers | bot/statistics.py:547-557 | setting one group column changes only that column of that group |
| UserManager.CheckinToggleFlips | bot/user_manager.py:124-138 | after the toggle, reading the check-in status gives the opposite of before |

## Left out

- Telegram I/O: replies, message deletion, restricting members, scheduled deletion jobs and keyboards other than search pagination are not modelled. Their outcomes (deletion failure, restriction permission, administrator list) are parameters.
- The texts of replies are left out. Commands return an outcome datatype instead of the rendered `get_text` message, and no MarkdownV2 fallback is modelled.
- AI conversation, Google search, charts and `db_discover_and_update_known_chats` are left out: they are network or plotting code.
- `SequenceMatcher.ratio()` is a parameter `similarity` of the FAQ search. Its algorithm is not modelled.
- The persistence of JSON files (chat histories, the old blacklist) and `diskcache` search storage are left out. Files are modelled only as their parsed content (`Missing`, `Corrupt` or entries), and `_save_*` writes are not modelled.
- The LRU eviction of `chat_histories` (maxsize 500) is not modelled; the histories are an unbounded map.
- Concurrency between handlers and SQLite transactions is left out; every operation runs atomically and in sequence.
- Unicode: `lower()`, `isspace()`, `isalpha()` and the regular expression `\w` cover ASCII, Latin-1 and common CJK and kana ranges only.
- Text.ParseInt: Python's `int()` also accepts underscores between digits and non-ASCII digits; the model accepts only an optional sign and ASCII digits.
- Localization.GetText: `str.format` is modelled for `{{` and `}}` escapes and plain `{name}` fields. Any other field (a format spec `{n:>5}`, a conversion `{n!r}`, an attribute or index `{n.x}` or `{n[0]}`, a positional `{0}`) is looked up by its whole text as a name. So where Python would apply the spec or raise `IndexError`, the model substitutes that argument or reports a missing key.
- Tally.InsertDesc: SQLite leaves the order of rows with equal `msg_count` under `ORDER BY msg_count DESC` unspecified. The model fixes one order: equal counts keep the order of the key's first appearance, and the joined rows of one entry keep log order. Tally.SortDesc, Tally.Limit, Tally.LeaderboardPrefixIsTop, Ranking.Join and the leaderboard lemmas use that order. When `LIMIT` cuts through a tie, which of the tied rows SQLite keeps is not modelled.
- Ranking.Message: timestamps are compared as integer instants. The source stores `datetime.now().isoformat()` (naive local time, bot/statistics.py:225) and compares ISO strings: `timestamp >= ?` against the period start (bot/statistics.py:406-407), `MAX(timestamp)` in the leaderboards, and `expiration_timestamp < ?` against an aware UTC string (bot/statistics.py:613-622). The model assumes those strings sort like the instants they name. That fails when local clocks go back (a DST fall-back repeats an hour of local ISO strings) and when naive and aware strings are compared.
- Helpers.WholeSeconds: `total_seconds()` is a float; the model uses exact microseconds, so durations beyond float precision may round differently.
- UserManager.IsSpamFilterOn: the `NULL` column branch is not modelled, because the schema declares the column `NOT NULL`.
- `db_record_checkin`'s `IntegrityError` on a duplicate row is not modelled, because the handler checks for today's row before inserting.
- FaqManager.DeleteFaq: the branch where `db_delete_faq` returns false after the row was listed is not modelled; in a sequential model the listed row always exists.
- Messages.ChatHandler: the steps after the points award (auto-chat, AI reply) are left out, and so are the commands it dispatches to. A message whose `user_name` is `None` is stored as the given name.
- The message timestamps of the spam check are whole instants; Telegram's second granularity is not modelled.
- `get_daily_activity_for_chat`, `get_user_stats_in_chat`, `db_get_groups_for_user`, `get_user_id_by_username` and `db_get_user_activity_across_groups` are left out: they are further read-only queries of the same tables, with no behaviour beyond what the rankings show.

## Findings

| source | as written | input that shows it | evidently intended | confidence | as-written member | corrected member |
|---|---|---|---|---|---|---|
| bot/handlers/helpers.py:53-56 | the escape list of `escape_markdown_v2` omits the backslash itself | a user name `\a` is sent as `\a`, which MarkdownV2 reads as `a`; `\_` becomes `\\_`, leaving `_` unescaped | backslashes are escaped like the other special characters, so every text reads back unchanged | medium, not executed | Helpers.EscapeLosesBackslash | Helpers.UnescapeOfEscapeAll |
