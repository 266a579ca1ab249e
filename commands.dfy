/**
 * The economy commands: `/checkin` and `/redeem`. Each is an ordered chain of guards
 * that either answers with a refusal and leaves the tables alone, or performs the
 * writes. The outcome and the new tables are given by a pure function of the old
 * ones; the method follows the handler's steps and is proved to agree with it.
 */
module Commands {
  import opened Wrappers
  import opened Text
  import opened Time
  import opened Database
  import opened UserManager
  import opened Helpers

  // ---------------------------------------------------------------------------------
  // checkin_command

  /** The points a successful check-in awards. */
  const CheckinPoints: int := 10

  /** The reply `checkin_command` chooses; `CheckedIn` carries the new balance it reports. */
  datatype CheckinOutcome = CheckinInPrivate | CheckinDisabled | AlreadyCheckedIn | CheckedIn(total: int)

  /** The tables a check-in touches. */
  datatype CheckinState = CheckinState(checkins: set<CheckinKey>, points: map<ChatUser, PointsRow>)

  /** The `(chat_id, user_id)` key of the user's rows in the chat. */
  function MemberKey(chat: Chat, user: User): ChatUser {
    (IntToString(chat.id), IntToString(user.id))
  }

  /** The `checkin_log` row of the UTC day of `now`. */
  function TodayRow(key: ChatUser, now: int): CheckinKey {
    (key.0, key.1, UtcDay(now))
  }

  /**
   * `checkin_command`: refused in a private chat, then when the group has check-in off,
   * then when the user already has today's row; otherwise today's row is inserted and
   * 10 points are added with no cooldown.
   */
  function CheckinResult(groups: map<string, GroupSettings>, s: CheckinState, chat: Chat, user: User, now: int)
    : (r: (CheckinOutcome, CheckinState))
    ensures chat.kind == Private ==> r == (CheckinInPrivate, s)
    ensures chat.kind != Private && !IsGroupCheckinOn(groups, chat.id) ==> r == (CheckinDisabled, s)
    ensures !r.0.CheckedIn? ==> r.1 == s
    ensures r.0.CheckedIn? <==>
      chat.kind != Private && IsGroupCheckinOn(groups, chat.id) && TodayRow(MemberKey(chat, user), now) !in s.checkins
    ensures r.0.CheckedIn? ==>
      var key := MemberKey(chat, user);
      && r.1.checkins == s.checkins + {TodayRow(key, now)}
      && r.0.total == PointsOf(s.points, key) + CheckinPoints
      && r.1.points == s.points[key := PointsRow(r.0.total, Aware(now))]
  {
    var key := MemberKey(chat, user);
    if chat.kind == Private then (CheckinInPrivate, s)
    else if !IsGroupCheckinOn(groups, chat.id) then (CheckinDisabled, s)
    else if TodayRow(key, now) in s.checkins then (AlreadyCheckedIn, s)
    else
      ZeroCooldownAlwaysAwards(s.points, key, CheckinPoints, now);
      var award := AwardResult(s.points, key, CheckinPoints, 0, now);
      (CheckedIn(award.total), CheckinState(s.checkins + {TodayRow(key, now)},
                                            LedgerAfterAward(s.points, key, CheckinPoints, 0, now)))
  }

  /**
   * Check-in is once per UTC day: a second `/checkin` on the same day, after the first
   * succeeded, is answered "already checked in" and changes nothing.
   */
  lemma CheckinOncePerDay(groups: map<string, GroupSettings>, s: CheckinState, chat: Chat, user: User,
                          t1: int, t2: int)
    requires CheckinResult(groups, s, chat, user, t1).0.CheckedIn?
    requires UtcDay(t1) == UtcDay(t2)
    ensures var s1 := CheckinResult(groups, s, chat, user, t1).1;
      CheckinResult(groups, s1, chat, user, t2) == (AlreadyCheckedIn, s1)
  {
    var key := MemberKey(chat, user);
    assert TodayRow(key, t2) == TodayRow(key, t1);
  }

  /** A successful check-in moves only the user's own balance in that chat, by exactly 10. */
  lemma CheckinAwardsExactlyTen(groups: map<string, GroupSettings>, s: CheckinState, chat: Chat, user: User,
                                now: int, other: ChatUser)
    requires CheckinResult(groups, s, chat, user, now).0.CheckedIn?
    ensures var s1 := CheckinResult(groups, s, chat, user, now).1;
      && PointsOf(s1.points, MemberKey(chat, user)) == PointsOf(s.points, MemberKey(chat, user)) + CheckinPoints
      && (other != MemberKey(chat, user) ==> PointsOf(s1.points, other) == PointsOf(s.points, other))
  {
  }

  /** A new UTC day opens check-in again for a user who checked in on an earlier one. */
  lemma CheckinOpensNextDay(groups: map<string, GroupSettings>, s: CheckinState, chat: Chat, user: User,
                            t1: int, t2: int)
    requires CheckinResult(groups, s, chat, user, t1).0.CheckedIn?
    requires UtcDay(t1) != UtcDay(t2) && TodayRow(MemberKey(chat, user), t2) !in s.checkins
    ensures var s1 := CheckinResult(groups, s, chat, user, t1).1;
      CheckinResult(groups, s1, chat, user, t2).0.CheckedIn?
  {
    var key := MemberKey(chat, user);
    assert TodayRow(key, t2) != TodayRow(key, t1);
  }

  /** `checkin_command` on the store: the reads, then `db_record_checkin` and `db_add_points`. */
  method Checkin(db: Store, chat: Chat, user: User, now: int) returns (outcome: CheckinOutcome)
    modifies db`checkins, db`points
    ensures (outcome, CheckinState(db.checkins, db.points)) ==
      CheckinResult(db.groupSettings, CheckinState(old(db.checkins), old(db.points)), chat, user, now)
  {
    if chat.kind == Private {
      return CheckinInPrivate;
    }
    var key := MemberKey(chat, user);
    if !IsGroupCheckinOn(db.groupSettings, chat.id) {
      outcome := CheckinDisabled;
    } else if db.CheckedInToday(key, now) {
      outcome := AlreadyCheckedIn;
    } else {
      var _ := db.RecordCheckin(key, now);
      var award := db.AddPoints(key, CheckinPoints, 0, now);
      outcome := CheckedIn(award.total);
    }
  }

  // ---------------------------------------------------------------------------------
  // redeem_command

  /** The reply `redeem_command` chooses. */
  datatype RedeemOutcome =
    | RedeemInPrivate
    | RedeemUsage
    | ItemNotFound(itemId: int)
    | NotEnoughPoints(cost: int, balance: int)
    | OutOfStock
    | Redeemed
    | RedeemFailed

  /** The tables a redemption touches. */
  datatype ShopState = ShopState(points: map<ChatUser, PointsRow>, items: map<int, ShopItem>)

  /** `int(context.args[0])`: no argument is the `IndexError`, a non-integer the `ValueError`. */
  function ItemIdArgument(args: seq<string>): (r: Option<int>)
    ensures args == [] ==> r == None
    ensures args != [] ==> r == ParseInt(args[0])
  {
    if args == [] then None else ParseInt(args[0])
  }

  /**
   * `redeem_command`: refused in a private chat, then on a missing or non-integer
   * argument, then for an id with no item, then when the balance is below the cost,
   * then when the stock is 0; otherwise `db_redeem_item` runs, with `storageFails`
   * standing for the exception that rolls it back.
   */
  function RedeemResult(s: ShopState, chat: Chat, user: User, args: seq<string>, storageFails: bool)
    : (r: (RedeemOutcome, ShopState))
    ensures !r.0.Redeemed? ==> r.1 == s
    ensures r.0.Redeemed? <==>
      && chat.kind != Private && ItemIdArgument(args).Some? && ItemIdArgument(args).value in s.items
      && PointsOf(s.points, MemberKey(chat, user)) >= s.items[ItemIdArgument(args).value].cost
      && s.items[ItemIdArgument(args).value].stock != 0
      && !storageFails
    ensures r.0.Redeemed? ==>
      var item := s.items[ItemIdArgument(args).value];
      r.1 == ShopState(LedgerAfterRedeem(s.points, MemberKey(chat, user), item), ItemsAfterRedeem(s.items, item))
  {
    if chat.kind == Private then (RedeemInPrivate, s)
    else if ItemIdArgument(args).None? then (RedeemUsage, s)
    else
      var id := ItemIdArgument(args).value;
      if id !in s.items then (ItemNotFound(id), s)
      else
        var item := s.items[id];
        var balance := PointsOf(s.points, MemberKey(chat, user));
        if balance < item.cost then (NotEnoughPoints(item.cost, balance), s)
        else if item.stock == 0 then (OutOfStock, s)
        else if storageFails then (RedeemFailed, s)
        else (Redeemed, ShopState(LedgerAfterRedeem(s.points, MemberKey(chat, user), item),
                                  ItemsAfterRedeem(s.items, item)))
  }

  /** The guards in order: a poor user hears about points even when the item is sold out. */
  lemma PointsCheckedBeforeStock(s: ShopState, chat: Chat, user: User, args: seq<string>, storageFails: bool)
    requires chat.kind != Private && ItemIdArgument(args).Some? && ItemIdArgument(args).value in s.items
    requires PointsOf(s.points, MemberKey(chat, user)) < s.items[ItemIdArgument(args).value].cost
    ensures RedeemResult(s, chat, user, args, storageFails).0 ==
      NotEnoughPoints(s.items[ItemIdArgument(args).value].cost, PointsOf(s.points, MemberKey(chat, user)))
  {
  }

  /** A bad argument gets the usage message whatever the tables hold. */
  lemma BadArgumentGetsUsage(s: ShopState, chat: Chat, user: User, arg: string, storageFails: bool)
    requires chat.kind != Private && ParseInt(arg).None?
    ensures RedeemResult(s, chat, user, [arg], storageFails) == (RedeemUsage, s)
    ensures RedeemResult(s, chat, user, [], storageFails) == (RedeemUsage, s)
  {
  }

  /**
   * A redemption never overdraws: the user's balance afterwards is the old one less the
   * cost when they had a row, and is never negative.
   */
  lemma RedeemNeverOverdraws(s: ShopState, chat: Chat, user: User, args: seq<string>, storageFails: bool)
    requires RedeemResult(s, chat, user, args, storageFails).0.Redeemed?
    ensures var key := MemberKey(chat, user);
      var r := RedeemResult(s, chat, user, args, storageFails).1;
      var cost := s.items[ItemIdArgument(args).value].cost;
      && (key in s.points ==> PointsOf(r.points, key) == PointsOf(s.points, key) - cost)
      && PointsOf(r.points, key) >= 0
  {
  }

  /**
   * The stock after a redemption: one less for a limited item (so a positive stock stays
   * non-negative) and still unlimited for an unlimited one; other items are untouched.
   */
  lemma RedeemStock(s: ShopState, chat: Chat, user: User, args: seq<string>, storageFails: bool)
    requires RedeemResult(s, chat, user, args, storageFails).0.Redeemed?
    requires var id := ItemIdArgument(args).value; s.items[id].id == id
    ensures var id := ItemIdArgument(args).value;
      var r := RedeemResult(s, chat, user, args, storageFails).1;
      && r.items.Keys == s.items.Keys
      && (s.items[id].stock == UnlimitedStock ==> r.items[id].stock == UnlimitedStock)
      && (s.items[id].stock != UnlimitedStock ==> r.items[id].stock == s.items[id].stock - 1)
      && (s.items[id].stock >= 1 ==> r.items[id].stock >= 0)
      && (forall other :: other in s.items && other != id ==> r.items[other] == s.items[other])
  {
  }

  /** `redeem_command` on the store. */
  method Redeem(db: Store, chat: Chat, user: User, args: seq<string>, storageFails: bool)
    returns (outcome: RedeemOutcome)
    modifies db`points, db`shopItems
    ensures (outcome, ShopState(db.points, db.shopItems)) ==
      RedeemResult(ShopState(old(db.points), old(db.shopItems)), chat, user, args, storageFails)
  {
    if chat.kind == Private {
      return RedeemInPrivate;
    }
    if args == [] || ParseInt(args[0]).None? {
      return RedeemUsage;
    }
    var id := ParseInt(args[0]).value;
    var found := db.ShopItemById(id);
    if found.None? {
      return ItemNotFound(id);
    }
    var item := found.value;
    var key := MemberKey(chat, user);
    var balance := PointsOf(db.points, key);
    if balance < item.cost {
      return NotEnoughPoints(item.cost, balance);
    }
    if item.stock == 0 {
      return OutOfStock;
    }
    var ok := db.RedeemItem(key, item, storageFails);
    outcome := if ok then Redeemed else RedeemFailed;
  }
}
