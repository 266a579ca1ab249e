/**
 * The advertisement keyword filter: a set of blocked keywords, loaded from a file one
 * keyword per line, and the test whether a text contains any of them, ignoring case.
 */
module AdBlocker {
  import opened Text

  /** `str.lower()` is idempotent. */
  lemma LowerCharIdempotent(c: char)
    ensures LowerChar(LowerChar(c)) == LowerChar(c)
  {
  }

  /** A lowercased string is its own lowercase. */
  predicate IsLower(s: string) {
    ToLower(s) == s
  }

  lemma ToLowerIsLower(s: string)
    ensures IsLower(ToLower(s))
  {
    forall i | 0 <= i < |s|
      ensures ToLower(ToLower(s))[i] == ToLower(s)[i]
    {
      LowerCharIdempotent(s[i]);
    }
  }

  /** One keyword line as stored: stripped and lowercased. */
  function NormalizeKeyword(line: string): (k: string)
    ensures |k| == |Strip(line)|
    ensures IsLower(k)
  {
    ToLowerIsLower(Strip(line));
    ToLower(Strip(line))
  }

  /** The keywords file: absent, unreadable, or its lines. */
  datatype KeywordFile = Missing | Unreadable | Lines(lines: seq<string>)

  /** The keyword set the lines give: blank lines are skipped, the others normalized. */
  function KeywordsOf(lines: seq<string>): (r: set<string>)
    ensures forall k :: k in r ==> k != "" && IsLower(k)
    ensures forall k :: k in r <==> exists l :: l in lines && Strip(l) != "" && k == NormalizeKeyword(l)
  {
    set l | l in lines && Strip(l) != "" :: NormalizeKeyword(l)
  }

  /**
   * `is_spam` as a property: a non-empty text is spam when one of the keywords occurs in
   * its lowercase form.
   */
  predicate Spam(keywords: set<string>, text: string) {
    text != "" && exists k :: k in keywords && Contains(ToLower(text), k)
  }

  /** `k` occurs in `s` at offset `i`. */
  predicate OccursAt(s: string, k: string, i: int) {
    0 <= i && i + |k| <= |s| && s[i..i + |k|] == k
  }

  /** Spam means some keyword occurs at some offset of the lowercased text. */
  lemma SpamIffOccurs(keywords: set<string>, text: string)
    ensures Spam(keywords, text) <==>
      text != "" && exists k, i :: k in keywords && OccursAt(ToLower(text), k, i)
  {
    var lower := ToLower(text);
    if Spam(keywords, text) {
      var k :| k in keywords && Contains(lower, k);
      var i := ContainsWitness(lower, k);
      assert OccursAt(lower, k, i);
    }
    if text != "" && exists k, i :: k in keywords && OccursAt(lower, k, i) {
      var k, i :| k in keywords && OccursAt(lower, k, i);
      ContainsAt(lower, k, i);
    }
  }

  /** More keywords never un-flag a text. */
  lemma SpamMonotone(keywords: set<string>, more: set<string>, text: string)
    requires keywords <= more && Spam(keywords, text)
    ensures Spam(more, text)
  {
    var k :| k in keywords && Contains(ToLower(text), k);
    assert k in more;
  }

  /** Case does not matter: a text flags exactly when its lowercase form does. */
  lemma SpamIgnoresCase(keywords: set<string>, text: string)
    ensures Spam(keywords, text) == Spam(keywords, ToLower(text))
  {
    ToLowerIsLower(text);
  }

  class Blocker {
    /** `BLOCKED_KEYWORDS`. */
    var keywords: set<string>

    predicate Valid()
      reads this
    {
      forall k :: k in keywords ==> k != "" && IsLower(k)
    }

    constructor ()
      ensures Valid() && keywords == {}
    {
      keywords := {};
    }

    /** `load_blocked_keywords`: a missing file (then created) or a failed read leaves no keywords. */
    method LoadBlockedKeywords(file: KeywordFile)
      modifies this
      ensures Valid()
      ensures file.Lines? ==> keywords == KeywordsOf(file.lines)
      ensures !file.Lines? ==> keywords == {}
    {
      if file.Lines? {
        keywords := KeywordsOf(file.lines);
      } else {
        keywords := {};
      }
    }

    /** `is_spam`: tries the keywords one by one and stops at the first that occurs. */
    method IsSpam(text: string) returns (spam: bool)
      ensures spam == Spam(keywords, text)
    {
      if text == "" || keywords == {} {
        return false;
      }
      var lower := ToLower(text);
      var remaining := keywords;
      while remaining != {}
        invariant remaining <= keywords
        invariant forall k :: k in keywords - remaining ==> !Contains(lower, k)
        decreases |remaining|
      {
        var k :| k in remaining;
        if Contains(lower, k) {
          return true;
        }
        remaining := remaining - {k};
      }
      return false;
    }
  }
}
