/**
 * The older in-memory blacklist: user id to expiration instant (aware UTC microseconds),
 * loaded from its saved form with expired or unreadable entries dropped.
 */
module BlacklistManager {
  import opened Wrappers
  import opened Text
  import opened Time

  /** The default of `duration_seconds`. */
  const DefaultDuration: int := 3600

  /** The saved blacklist: absent, unreadable, or its `(user id, expiration)` pairs in order. */
  datatype BlacklistFile = Missing | Corrupt | Entries(entries: seq<(string, Stamp)>)

  /**
   * The entry `_load_blacklist` takes from one pair: the expiration must parse, be aware
   * (a naive one cannot be compared, `TypeError`), lie after `now`, and the key must be an
   * integer; anything else is skipped.
   */
  function EntryOf(e: (string, Stamp), now: int): (r: Option<(int, int)>)
    ensures r.Some? <==> e.1.Aware? && e.1.at > now && ParseInt(e.0).Some?
    ensures r.Some? ==> r.value == (ParseInt(e.0).value, e.1.at)
  {
    if e.1.Aware? && e.1.at > now && ParseInt(e.0).Some? then Some((ParseInt(e.0).value, e.1.at)) else None
  }

  /** What each saved pair contributes, in file order. */
  function Accepted(entries: seq<(string, Stamp)>, now: int): (r: seq<Option<(int, int)>>)
    ensures |r| == |entries|
    ensures forall k :: 0 <= k < |entries| ==> r[k] == EntryOf(entries[k], now)
  {
    seq(|entries|, k requires 0 <= k < |entries| => EntryOf(entries[k], now))
  }

  /** The map a run of accepted pairs builds, later pairs overwriting earlier ones. */
  function Build(pairs: seq<Option<(int, int)>>): map<int, int>
    decreases |pairs|
  {
    if pairs == [] then map[]
    else
      var n := |pairs| - 1;
      var prefix := Build(pairs[..n]);
      if pairs[n].Some? then prefix[pairs[n].value.0 := pairs[n].value.1] else prefix
  }

  /** One more pair extends the map it builds. */
  lemma BuildStep(pairs: seq<Option<(int, int)>>, i: int)
    requires 0 <= i < |pairs|
    ensures Build(pairs[..i + 1]) ==
      if pairs[i].Some? then Build(pairs[..i])[pairs[i].value.0 := pairs[i].value.1] else Build(pairs[..i])
  {
    assert pairs[..i + 1][..i] == pairs[..i];
  }

  /** The blacklist `_load_blacklist` builds from the saved pairs at `now`. */
  function Loaded(entries: seq<(string, Stamp)>, now: int): map<int, int> {
    Build(Accepted(entries, now))
  }

  /** The pair `p` is accepted and is about user `u`. */
  predicate Names(p: Option<(int, int)>, u: int) {
    p.Some? && p.value.0 == u
  }

  /** A user is in the built map exactly when some pair names them, with the last such pair's value. */
  lemma {:induction false} BuildMembers(pairs: seq<Option<(int, int)>>, u: int)
    ensures u in Build(pairs) <==> exists k :: 0 <= k < |pairs| && Names(pairs[k], u)
    ensures u in Build(pairs) ==> exists k :: 0 <= k < |pairs| && pairs[k] == Some((u, Build(pairs)[u]))
    decreases |pairs|
  {
    if pairs != [] {
      var n := |pairs| - 1;
      var prefix := pairs[..n];
      BuildMembers(prefix, u);
      if Names(pairs[n], u) {
        assert pairs[n] == Some((u, Build(pairs)[u]));
      } else {
        if u in Build(prefix) {
          var k :| 0 <= k < n && prefix[k] == Some((u, Build(prefix)[u]));
          assert prefix[k] == pairs[k];
        }
        if exists k :: 0 <= k < |pairs| && Names(pairs[k], u) {
          var k :| 0 <= k < |pairs| && Names(pairs[k], u);
          if k < n {
            assert prefix[k] == pairs[k];
          }
        }
      }
    }
  }

  /**
   * `_load_blacklist` keeps exactly the users some accepted pair names, each with an
   * expiration taken from one such pair, so every loaded entry is active at load time.
   */
  lemma LoadedMembers(entries: seq<(string, Stamp)>, now: int, u: int)
    ensures u in Loaded(entries, now) <==>
      exists k :: 0 <= k < |entries| && Names(EntryOf(entries[k], now), u)
    ensures u in Loaded(entries, now) ==> Loaded(entries, now)[u] > now
  {
    var pairs := Accepted(entries, now);
    BuildMembers(pairs, u);
    if u in Loaded(entries, now) {
      var k :| 0 <= k < |pairs| && pairs[k] == Some((u, Build(pairs)[u]));
      assert EntryOf(entries[k], now) == pairs[k];
    }
  }

  class Blacklist {
    /** `blacklisted_users`. */
    var users: map<int, int>

    constructor ()
      ensures users == map[]
    {
      users := map[];
    }

    /**
     * `_load_blacklist`: nothing happens without a file; an unreadable file empties the
     * blacklist; otherwise it becomes the accepted pairs.
     */
    method LoadBlacklist(file: BlacklistFile, now: int)
      modifies this
      ensures file.Missing? ==> users == old(users)
      ensures file.Corrupt? ==> users == map[]
      ensures file.Entries? ==> users == Loaded(file.entries, now)
    {
      match file {
        case Missing =>
        case Corrupt =>
          users := map[];
        case Entries(entries) =>
          var temp: map<int, int> := map[];
          ghost var pairs := Accepted(entries, now);
          var i := 0;
          while i < |entries|
            invariant 0 <= i <= |entries|
            invariant temp == Build(pairs[..i])
          {
            var accepted := EntryOf(entries[i], now);
            BuildStep(pairs, i);
            assert pairs[i] == accepted;
            if accepted.Some? {
              temp := temp[accepted.value.0 := accepted.value.1];
            }
            i := i + 1;
          }
          assert pairs[..i] == pairs;
          users := temp;
      }
    }

    /** `add_to_blacklist`: the user's expiration becomes `now + duration`, replacing any earlier one. */
    method AddToBlacklist(userId: int, durationSeconds: int, now: int)
      modifies this
      ensures users == old(users)[userId := now + durationSeconds * Second]
    {
      users := users[userId := now + durationSeconds * Second];
    }

    /** `remove_from_blacklist`: `True` exactly when the user was listed; nobody else changes. */
    method RemoveFromBlacklist(userId: int) returns (removed: bool)
      modifies this
      ensures removed <==> userId in old(users)
      ensures users == old(users) - {userId}
    {
      if userId in users {
        users := users - {userId};
        return true;
      }
      return false;
    }

    /**
     * `get_user_blacklist_expiration`: an expired entry is removed on the way; an active one
     * is returned and kept.
     */
    method GetUserBlacklistExpiration(userId: int, now: int) returns (expiration: Option<int>)
      modifies this
      ensures userId !in old(users) ==> expiration == None && users == old(users)
      ensures userId in old(users) && now > old(users)[userId] ==> expiration == None && users == old(users) - {userId}
      ensures userId in old(users) && now <= old(users)[userId] ==> expiration == Some(old(users)[userId]) && users == old(users)
    {
      if userId !in users {
        return None;
      }
      var at := users[userId];
      if now > at {
        var _ := RemoveFromBlacklist(userId);
        return None;
      }
      return Some(at);
    }
  }
}
