/**
 * Counting and ordering shared by the statistics queries: the `GROUP BY ... COUNT(*)
 * ORDER BY count DESC` of the SQL leaderboards, `collections.Counter(...).most_common(n)`
 * for topics, and `RANK() OVER (ORDER BY count DESC)`.
 *
 * Counts are `multiset(s)[x]`, the number of occurrences of `x` in `s`.
 */
module Tally {

  datatype Entry<K> = Entry(key: K, count: nat)

  /** List comprehension `[x for x in s if p(x)]`. */
  function Filter<T(==,!new)>(s: seq<T>, p: T -> bool): (r: seq<T>)
    ensures |r| <= |s|
    ensures forall x :: x in r <==> x in s && p(x)
    ensures forall x :: p(x) ==> multiset(r)[x] == multiset(s)[x]
    ensures forall x :: !p(x) ==> multiset(r)[x] == 0
  {
    if s == [] then []
    else
      var rest := Filter(s[1..], p);
      assert s == [s[0]] + s[1..];
      if p(s[0]) then [s[0]] + rest else rest
  }

  /** List comprehension `[f(x) for x in s]`. */
  function MapSeq<T, U>(s: seq<T>, f: T -> U): (r: seq<U>)
    ensures |r| == |s|
    ensures forall i :: 0 <= i < |s| ==> r[i] == f(s[i])
  {
    seq(|s|, i requires 0 <= i < |s| => f(s[i]))
  }

  predicate NoDuplicates<T(==,!new)>(s: seq<T>) {
    forall i, j :: 0 <= i < j < |s| ==> s[i] != s[j]
  }

  /** The distinct elements of `s` in order of first occurrence (dict insertion order). */
  function Distinct<T(==,!new)>(s: seq<T>): (r: seq<T>)
    ensures forall x :: x in r <==> x in s
    ensures NoDuplicates(r)
    ensures |r| <= |s|
  {
    if s == [] then []
    else
      var d := Distinct(s[..|s| - 1]);
      var last := s[|s| - 1];
      assert forall x :: x in s <==> x in s[..|s| - 1] || x == last by {
        assert s == s[..|s| - 1] + [last];
      }
      if last in d then d else d + [last]
  }

  /** A `Counter` over `s`: one entry per distinct element, in order of first occurrence. */
  function Count<K(==,!new)>(s: seq<K>): (r: seq<Entry<K>>)
    ensures |r| == |Distinct(s)|
    ensures forall i :: 0 <= i < |r| ==> r[i].key == Distinct(s)[i] && r[i].count == multiset(s)[r[i].key]
  {
    var d := Distinct(s);
    seq(|d|, i requires 0 <= i < |d| => Entry(d[i], multiset(s)[d[i]]))
  }

  function Keys<K(==,!new)>(es: seq<Entry<K>>): (r: seq<K>)
    ensures |r| == |es|
    ensures forall i :: 0 <= i < |es| ==> r[i] == es[i].key
  {
    seq(|es|, i requires 0 <= i < |es| => es[i].key)
  }

  predicate SortedDesc<K(==,!new)>(es: seq<Entry<K>>) {
    forall i, j :: 0 <= i < j < |es| ==> es[i].count >= es[j].count
  }

  /** Inserts `e` after every entry whose count is at least `e.count` (keeps ties stable). */
  function InsertDesc<K(==,!new)>(sorted: seq<Entry<K>>, e: Entry<K>): (r: seq<Entry<K>>)
    requires SortedDesc(sorted)
    ensures SortedDesc(r)
    ensures multiset(r) == multiset(sorted) + multiset{e}
    ensures |r| == |sorted| + 1
    ensures r[0] == e || (sorted != [] && r[0] == sorted[0])
  {
    if sorted == [] then [e]
    else if sorted[0].count < e.count then [e] + sorted
    else
      var rest := InsertDesc(sorted[1..], e);
      assert sorted == [sorted[0]] + sorted[1..];
      [sorted[0]] + rest
  }

  /** Stable sort by count, largest first (`sorted(..., reverse=True)` on the counts). */
  function SortDesc<K(==,!new)>(es: seq<Entry<K>>): (r: seq<Entry<K>>)
    ensures SortedDesc(r)
    ensures multiset(r) == multiset(es)
    ensures |r| == |es|
  {
    if es == [] then []
    else
      assert es == es[..|es| - 1] + [es[|es| - 1]];
      InsertDesc(SortDesc(es[..|es| - 1]), es[|es| - 1])
  }

  /** All groups of `s` with their counts, largest count first. */
  function Leaderboard<K(==,!new)>(s: seq<K>): seq<Entry<K>> {
    SortDesc(Count(s))
  }

  /** `Counter(s).most_common(n)`: `heapq.nlargest` gives `[]` for `n <= 0`. */
  function MostCommon<K(==,!new)>(s: seq<K>, n: int): (r: seq<Entry<K>>)
    ensures n <= 0 ==> r == []
    ensures n > 0 ==> |r| == if n < |Distinct(s)| then n else |Distinct(s)|
  {
    var board := Leaderboard(s);
    if n <= 0 then [] else board[..if n < |board| then n else |board|]
  }

  /** `LIMIT n` over rows already in order: the first `n` rows; SQLite treats a negative limit as no limit. */
  function Limit<T>(rows: seq<T>, limit: int): (r: seq<T>)
    ensures limit < 0 ==> r == rows
    ensures limit >= 0 ==> |r| == (if limit < |rows| then limit else |rows|)
    ensures r == rows[..|r|]
  {
    if limit < 0 || |rows| <= limit then rows else rows[..limit]
  }

  lemma CountEntryIn<K(!new)>(s: seq<K>, x: K)
    requires x in s
    ensures Entry(x, multiset(s)[x]) in Count(s)
  {
    var d := Distinct(s);
    var i :| 0 <= i < |d| && d[i] == x;
    assert Count(s)[i] == Entry(x, multiset(s)[x]);
  }

  /**
   * What a leaderboard is: every entry is a distinct group of `s` with its exact count,
   * every group of `s` appears, and counts never increase along the board.
   */
  lemma {:induction false} LeaderboardSpec<K(!new)>(s: seq<K>)
    ensures var r := Leaderboard(s);
      && |r| == |Distinct(s)|
      && SortedDesc(r)
      && (forall i :: 0 <= i < |r| ==> r[i].key in s && r[i].count == multiset(s)[r[i].key] && r[i].count >= 1)
      && (forall x :: x in s ==> exists i :: 0 <= i < |r| && r[i].key == x)
      && NoDuplicates(Keys(r))
  {
    var c := Count(s);
    var r := Leaderboard(s);
    assert multiset(r) == multiset(c);
    forall i | 0 <= i < |r|
      ensures r[i].key in s && r[i].count == multiset(s)[r[i].key] && r[i].count >= 1
    {
      assert r[i] in multiset(c);
      var j :| 0 <= j < |c| && c[j] == r[i];
      assert Distinct(s)[j] in Distinct(s);
    }
    forall x | x in s ensures exists i :: 0 <= i < |r| && r[i].key == x {
      CountEntryIn(s, x);
      assert Entry(x, multiset(s)[x]) in multiset(r);
    }
    var ks := Keys(r);
    forall i, j | 0 <= i < j < |ks| ensures ks[i] != ks[j] {
      if ks[i] == ks[j] {
        assert r[i] == r[j];
        assert r[i] in multiset(c);
        var a :| 0 <= a < |c| && c[a] == r[i];
        MultisetTwoPositions(r, i, j);
        assert multiset(c)[r[i]] >= 2;
        CountMultiplicity(s, a);
        assert false;
      }
    }
  }

  lemma MultisetTwoPositions<T(!new)>(s: seq<T>, i: nat, j: nat)
    requires i < j < |s| && s[i] == s[j]
    ensures multiset(s)[s[i]] >= 2
  {
    assert s == s[..i] + [s[i]] + s[i + 1..j] + [s[j]] + s[j + 1..];
  }

  /** Each entry of a counter occurs only once in it. */
  lemma CountMultiplicity<K(!new)>(s: seq<K>, a: nat)
    requires a < |Count(s)|
    ensures multiset(Count(s))[Count(s)[a]] == 1
  {
    var c := Count(s);
    var d := Distinct(s);
    if multiset(c)[c[a]] != 1 {
      assert c[a] in multiset(c);
      var b :| 0 <= b < |c| && b != a && c[b] == c[a] by {
        OtherPosition(c, a);
      }
    }
  }

  lemma OtherPosition<T(!new)>(s: seq<T>, a: nat)
    requires a < |s| && multiset(s)[s[a]] != 1
    ensures exists b :: 0 <= b < |s| && b != a && s[b] == s[a]
  {
    assert s == s[..a] + [s[a]] + s[a + 1..];
    assert multiset(s)[s[a]] == multiset(s[..a])[s[a]] + 1 + multiset(s[a + 1..])[s[a]];
    if multiset(s[..a])[s[a]] > 0 {
      assert s[a] in s[..a];
      var b :| 0 <= b < a && s[..a][b] == s[a];
      assert s[b] == s[a];
    } else {
      assert s[a] in s[a + 1..];
      var b :| 0 <= b < |s| - a - 1 && s[a + 1..][b] == s[a];
      assert s[a + 1 + b] == s[a];
    }
  }

  /**
   * Top-N: a group left off the first `k` places of the board never has a larger
   * count than the last group on them.
   */
  lemma {:induction false} LeaderboardPrefixIsTop<K(!new)>(s: seq<K>, k: nat, x: K)
    requires 0 < k <= |Leaderboard(s)|
    requires x in s && x !in Keys(Leaderboard(s)[..k])
    ensures multiset(s)[x] <= Leaderboard(s)[k - 1].count
  {
    LeaderboardSpec(s);
    var r := Leaderboard(s);
    var i :| 0 <= i < |r| && r[i].key == x;
    assert forall j :: 0 <= j < k ==> r[j].key in Keys(r[..k]) by {
      forall j | 0 <= j < k ensures r[j].key in Keys(r[..k]) {
        assert Keys(r[..k])[j] == r[j].key;
      }
    }
  }

  /** Competition rank (`RANK() OVER (ORDER BY count DESC)`); 0 when `x` has no rows. */
  function RankOf<K(==,!new)>(s: seq<K>, x: K): nat {
    if x !in s then 0 else 1 + |set y | y in s && multiset(s)[y] > multiset(s)[x]|
  }

  lemma RankSentinel<K(!new)>(s: seq<K>, x: K)
    ensures RankOf(s, x) == 0 <==> x !in s
  {
  }

  /** Equal counts share a rank. */
  lemma RankTies<K(!new)>(s: seq<K>, x: K, y: K)
    requires x in s && y in s && multiset(s)[x] == multiset(s)[y]
    ensures RankOf(s, x) == RankOf(s, y)
  {
  }

  /** A strictly larger count gets a strictly better (smaller) rank. */
  lemma RankStrictlyBetter<K(!new)>(s: seq<K>, x: K, y: K)
    requires x in s && y in s && multiset(s)[x] > multiset(s)[y]
    ensures RankOf(s, x) < RankOf(s, y)
  {
    var above := set z | z in s && multiset(s)[z] > multiset(s)[x];
    var aboveY := set z | z in s && multiset(s)[z] > multiset(s)[y];
    assert above + {x} <= aboveY;
    assert x !in above;
    SubsetCard(above + {x}, aboveY);
  }

  lemma SubsetCard<T(!new)>(a: set<T>, b: set<T>)
    requires a <= b
    ensures |a| <= |b|
  {
    assert b == a + (b - a);
  }

  /** The largest count ranks first. */
  lemma RankOfMaximum<K(!new)>(s: seq<K>, x: K)
    requires x in s && forall y :: y in s ==> multiset(s)[y] <= multiset(s)[x]
    ensures RankOf(s, x) == 1
  {
    var above := set z | z in s && multiset(s)[z] > multiset(s)[x];
    assert above == {};
  }

  /** A group at place `i` (0-based) of the leaderboard never ranks worse than `i + 1`. */
  lemma {:induction false} RankAgreesWithLeaderboard<K(!new)>(s: seq<K>, i: nat)
    requires i < |Leaderboard(s)|
    ensures RankOf(s, Leaderboard(s)[i].key) <= i + 1
  {
    LeaderboardSpec(s);
    var r := Leaderboard(s);
    var x := r[i].key;
    var above := set z | z in s && multiset(s)[z] > multiset(s)[x];
    var placesBefore := set j | 0 <= j < i :: r[j].key;
    forall z | z in above ensures z in placesBefore {
      var j :| 0 <= j < |r| && r[j].key == z;
      assert r[j].count > r[i].count;
      assert j < i;
    }
    SubsetCard(above, placesBefore);
    ImageCard(r, i);
  }

  lemma {:induction false} ImageCard<K(!new)>(r: seq<Entry<K>>, i: nat)
    requires i <= |r|
    ensures |set j | 0 <= j < i :: r[j].key| <= i
  {
    if i > 0 {
      ImageCard(r, i - 1);
      assert (set j | 0 <= j < i :: r[j].key) == (set j | 0 <= j < i - 1 :: r[j].key) + {r[i - 1].key};
    }
  }
}
