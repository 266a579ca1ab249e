/**
 * The per-group FAQ: the keywords stored with a question, adding a question, deleting
 * one by its position in the listing, and finding the answer of the stored question
 * most similar to a new one. The similarity ratio is a parameter.
 */
module FaqManager {
  import opened Wrappers
  import opened Text
  import opened Database

  /** `SIMILARITY_THRESHOLD`. */
  const SimilarityThreshold: real := 0.75

  // ---------------------------------------------------------------------------------
  // _extract_keywords

  /** `re.sub(r'[^\w\s]', '', s)`: keeps the word characters and the whitespace, in order. */
  function RemovePunctuation(s: string): (r: string)
    ensures |r| <= |s|
    ensures forall c :: c in r ==> c in s && (IsWordChar(c) || IsSpace(c))
  {
    if s == [] then []
    else (if IsWordChar(s[0]) || IsSpace(s[0]) then [s[0]] else []) + RemovePunctuation(s[1..])
  }

  /** Text made only of word characters and whitespace loses nothing. */
  lemma {:induction false} RemovePunctuationKeeps(s: string)
    requires forall c :: c in s ==> IsWordChar(c) || IsSpace(c)
    ensures RemovePunctuation(s) == s
  {
    if s != [] {
      assert s[0] in s;
      assert forall c :: c in s[1..] ==> c in s;
      RemovePunctuationKeeps(s[1..]);
      assert [s[0]] + s[1..] == s;
    }
  }

  /** A token of `str.split()`: non-empty and without whitespace. */
  predicate IsToken(w: string) {
    w != [] && forall c :: c in w ==> !IsSpace(c)
  }

  /** Every character of `w` occurs in `s`. */
  predicate Within(w: string, s: string) {
    forall c :: c in w ==> c in s
  }

  /** The length of the leading run of non-whitespace characters. */
  function TokenLength(s: string): (n: nat)
    ensures n <= |s|
    ensures forall i :: 0 <= i < n ==> !IsSpace(s[i])
    ensures n < |s| ==> IsSpace(s[n])
  {
    if s == [] || IsSpace(s[0]) then 0 else 1 + TokenLength(s[1..])
  }

  /** `str.split()` without a separator: the maximal runs of non-whitespace, in order. */
  function Split(s: string): seq<string>
    decreases |s|
  {
    if s == [] then []
    else if IsSpace(s[0]) then Split(s[1..])
    else
      var n := TokenLength(s);
      [s[..n]] + Split(s[n..])
  }

  /** Every piece of a split is a token made of the text's characters. */
  lemma {:induction false} SplitTokens(s: string)
    ensures forall w :: w in Split(s) ==> IsToken(w) && Within(w, s)
    decreases |s|
  {
    if s != [] {
      if IsSpace(s[0]) {
        SplitTokens(s[1..]);
        assert forall c :: c in s[1..] ==> c in s;
      } else {
        var n := TokenLength(s);
        SplitTokens(s[n..]);
        assert forall c :: c in s[n..] ==> c in s;
        assert IsToken(s[..n]) && Within(s[..n], s) by {
          forall c | c in s[..n] ensures !IsSpace(c) && c in s {
            var i :| 0 <= i < n && s[..n][i] == c;
            assert s[i] == c;
          }
        }
      }
    }
  }

  /** `" ".join(ws)`. */
  function JoinWords(ws: seq<string>): string
    decreases |ws|
  {
    if ws == [] then [] else if |ws| == 1 then ws[0] else ws[0] + " " + JoinWords(ws[1..])
  }

  /** `_extract_keywords`: lowercase, drop punctuation, strip, split, and join with single spaces. */
  function ExtractKeywords(text: string): string {
    JoinWords(Split(Strip(RemovePunctuation(ToLower(text)))))
  }

  /** A run of tokens joined with spaces starts with the first token's first character. */
  lemma JoinFirst(ws: seq<string>)
    requires ws != [] && IsToken(ws[0])
    ensures JoinWords(ws) != [] && JoinWords(ws)[0] == ws[0][0]
  {
  }

  /** … and ends with the last token's last character. */
  lemma {:induction false} JoinLast(ws: seq<string>)
    requires ws != [] && IsToken(ws[|ws| - 1])
    ensures var j := JoinWords(ws); j != [] && j[|j| - 1] == ws[|ws| - 1][|ws[|ws| - 1]| - 1]
    decreases |ws|
  {
    if |ws| > 1 {
      JoinLast(ws[1..]);
    }
  }

  /** A property of every character of every token and of the space holds of the joined text. */
  lemma {:induction false} JoinChars(ws: seq<string>, p: char -> bool)
    requires p(' ')
    requires forall w :: w in ws ==> forall c :: c in w ==> p(c)
    ensures forall c :: c in JoinWords(ws) ==> p(c)
    decreases |ws|
  {
    if ws != [] {
      assert ws[0] in ws;
    }
    if |ws| > 1 {
      assert forall w :: w in ws[1..] ==> w in ws;
      JoinChars(ws[1..], p);
    }
  }

  /** The leading run of a token followed by a space (or nothing) is the token. */
  lemma {:induction false} TokenLengthOfToken(w: string, tail: string)
    requires forall c :: c in w ==> !IsSpace(c)
    requires tail == [] || IsSpace(tail[0])
    ensures TokenLength(w + tail) == |w|
    decreases |w|
  {
    if w != [] {
      assert w[0] in w;
      assert forall c :: c in w[1..] ==> c in w;
      assert (w + tail)[1..] == w[1..] + tail;
      TokenLengthOfToken(w[1..], tail);
    }
  }

  /** Text not starting with whitespace splits the same with one space in front. */
  lemma SplitSkipsSpace(s: string)
    requires s == [] || !IsSpace(s[0])
    ensures Split(" " + s) == Split(s)
  {
    assert (" " + s)[1..] == s;
  }

  /** Splitting undoes joining: tokens joined with single spaces split back into themselves. */
  lemma {:induction false} SplitOfJoin(ws: seq<string>)
    requires forall w :: w in ws ==> IsToken(w)
    ensures Split(JoinWords(ws)) == ws
    decreases |ws|
  {
    if ws != [] {
      var w := ws[0];
      assert w in ws;
      if |ws| == 1 {
        TokenLengthOfToken(w, []);
        assert w + [] == w;
        assert w[|w|..] == [];
      } else {
        var rest := ws[1..];
        assert forall v :: v in rest ==> v in ws;
        assert rest[0] in ws;
        var r := JoinWords(rest);
        JoinFirst(rest);
        var j := w + (" " + r);
        assert JoinWords(ws) == j;
        TokenLengthOfToken(w, " " + r);
        assert j[..|w|] == w;
        assert j[|w|..] == " " + r;
        SplitSkipsSpace(r);
        SplitOfJoin(rest);
      }
    }
  }

  /** Text starting and ending with non-whitespace is already stripped. */
  lemma StripOfTrimmed(s: string)
    requires s == [] || (!IsSpace(s[0]) && !IsSpace(s[|s| - 1]))
    ensures Strip(s) == s
  {
  }

  /** A character `_extract_keywords` can leave: a lowercase word character, or the separator. */
  predicate KeywordChar(c: char) {
    c == ' ' || (IsWordChar(c) && LowerChar(c) == c)
  }

  /**
   * The stored keywords are lowercase words separated by single spaces: only keyword
   * characters, no space at either end, and splitting them gives back the tokens of
   * the cleaned text, none of them empty.
   */
  lemma ExtractKeywordsShape(text: string)
    ensures var k := ExtractKeywords(text);
      && (forall c :: c in k ==> KeywordChar(c))
      && (k != [] ==> k[0] != ' ' && k[|k| - 1] != ' ')
      && Split(k) == Split(Strip(RemovePunctuation(ToLower(text))))
      && (forall w :: w in Split(k) ==> IsToken(w))
  {
    var lower := ToLower(text);
    var cleaned := Strip(RemovePunctuation(lower));
    var ws := Split(cleaned);
    assert forall c :: c in lower ==> LowerChar(c) == c by {
      forall c | c in lower ensures LowerChar(c) == c {
        var i :| 0 <= i < |lower| && lower[i] == c;
        assert c == LowerChar(text[i]);
      }
    }
    SplitTokens(cleaned);
    assert forall w :: w in ws ==> forall c :: c in w ==> KeywordChar(c) by {
      forall w, c | w in ws && c in w ensures KeywordChar(c) {
        assert IsToken(w) && Within(w, cleaned);
      }
    }
    JoinChars(ws, KeywordChar);
    SplitOfJoin(ws);
    if ws != [] {
      JoinFirst(ws);
      JoinLast(ws);
      assert ws[0] in ws && ws[|ws| - 1] in ws;
      assert ws[0][0] in ws[0];
      assert ws[|ws| - 1][|ws[|ws| - 1]| - 1] in ws[|ws| - 1];
    }
  }

  /** Text of keyword characters is its own lowercase. */
  lemma LowerOfKeywordChars(k: string)
    requires forall c :: c in k ==> KeywordChar(c)
    ensures ToLower(k) == k
  {
    forall i | 0 <= i < |k| ensures ToLower(k)[i] == k[i] {
      assert k[i] in k;
    }
  }

  /** `_extract_keywords` is idempotent: the stored keywords are their own keywords. */
  lemma ExtractKeywordsIdempotent(text: string)
    ensures ExtractKeywords(ExtractKeywords(text)) == ExtractKeywords(text)
  {
    var k := ExtractKeywords(text);
    ExtractKeywordsShape(text);
    LowerOfKeywordChars(k);
    assert forall c :: c in k ==> IsWordChar(c) || IsSpace(c);
    RemovePunctuationKeeps(k);
    if k != [] {
      assert k[0] in k && k[|k| - 1] in k;
      WordCharIsNotSpace(k[0]);
      WordCharIsNotSpace(k[|k| - 1]);
    }
    StripOfTrimmed(k);
    var ws := Split(Strip(RemovePunctuation(ToLower(text))));
    assert k == JoinWords(ws);
    assert ExtractKeywords(k) == JoinWords(Split(k));
  }

  /** `add_faq`: the question is stored with its keywords; a repeated question is refused. */
  method AddFaq(db: Store, chatId: int, question: string, answer: string) returns (ok: bool)
    requires db.Valid()
    modifies db`faqs, db`nextFaqId
    ensures db.Valid()
    ensures ok <==> !HasFaq(old(db.faqs), IntToString(chatId), question)
    ensures !ok ==> db.faqs == old(db.faqs) && db.nextFaqId == old(db.nextFaqId)
    ensures ok ==> db.faqs == old(db.faqs) + [FaqRow(old(db.nextFaqId), IntToString(chatId), question, answer,
                                                   ExtractKeywords(question))]
  {
    var keywords := ExtractKeywords(question);
    ok := db.AddFaq(IntToString(chatId), question, answer, keywords);
  }

  // ---------------------------------------------------------------------------------
  // delete_faq

  lemma ConsForChat(h: FaqRow, t: seq<FaqRow>, chatId: string)
    ensures FaqsForChat([h] + t, chatId) == (if h.chatId == chatId then [h] else []) + FaqsForChat(t, chatId)
  {
    assert ([h] + t)[1..] == t;
  }

  lemma ConsWithoutId(h: FaqRow, t: seq<FaqRow>, id: int)
    ensures FaqsWithoutId([h] + t, id) == if h.id == id then FaqsWithoutId(t, id) else [h] + FaqsWithoutId(t, id)
  {
    assert ([h] + t)[1..] == t;
  }

  /** Filtering by chat and deleting by id can be done in either order. */
  lemma {:induction false} ForChatWithoutId(faqs: seq<FaqRow>, chatId: string, id: int)
    ensures FaqsForChat(FaqsWithoutId(faqs, id), chatId) == FaqsWithoutId(FaqsForChat(faqs, chatId), id)
    decreases |faqs|
  {
    if faqs != [] {
      var h, t := faqs[0], faqs[1..];
      assert faqs == [h] + t;
      ForChatWithoutId(t, chatId, id);
      var wt := FaqsWithoutId(t, id);
      var ft := FaqsForChat(t, chatId);
      ConsWithoutId(h, t, id);
      ConsForChat(h, t, chatId);
      if h.chatId == chatId {
        ConsWithoutId(h, ft, id);
        if h.id != id {
          ConsForChat(h, wt, chatId);
        }
      } else {
        assert [] + ft == ft;
        if h.id != id {
          ConsForChat(h, wt, chatId);
          assert [] + FaqsForChat(wt, chatId) == FaqsForChat(wt, chatId);
        }
      }
    }
  }

  lemma WithoutAbsentId(t: seq<FaqRow>, id: int)
    requires forall j :: 0 <= j < |t| ==> t[j].id != id
    ensures FaqsWithoutId(t, id) == t
  {
    forall f | f in t ensures f.id != id {
      var j :| 0 <= j < |t| && t[j] == f;
    }
  }

  /** Deleting the id held only by position `k` removes exactly that row. */
  lemma {:induction false} WithoutIdAt(s: seq<FaqRow>, k: int)
    requires 0 <= k < |s|
    requires forall j :: 0 <= j < |s| && j != k ==> s[j].id != s[k].id
    ensures FaqsWithoutId(s, s[k].id) == s[..k] + s[k + 1..]
    decreases |s|
  {
    var h, t := s[0], s[1..];
    assert s == [h] + t;
    ConsWithoutId(h, t, s[k].id);
    if k == 0 {
      assert forall j :: 0 <= j < |t| ==> t[j].id != h.id by {
        forall j | 0 <= j < |t| ensures t[j].id != h.id {
          assert t[j] == s[j + 1];
        }
      }
      WithoutAbsentId(t, h.id);
      assert s[..0] + s[1..] == t;
    } else {
      assert t[k - 1] == s[k];
      assert forall j :: 0 <= j < |t| && j != k - 1 ==> t[j].id != t[k - 1].id by {
        forall j | 0 <= j < |t| && j != k - 1 ensures t[j].id != t[k - 1].id {
          assert t[j] == s[j + 1];
        }
      }
      WithoutIdAt(t, k - 1);
      ConsSlices(s, k);
    }
  }

  lemma ConsSlices(s: seq<FaqRow>, k: int)
    requires 0 < k < |s|
    ensures [s[0]] + (s[1..][..k - 1] + s[1..][k..]) == s[..k] + s[k + 1..]
  {
    assert s[1..][..k - 1] == s[1..k];
    assert s[1..][k..] == s[k + 1..];
    assert [s[0]] + s[1..k] == s[..k];
  }

  /** Rows with increasing ids have distinct ids. */
  lemma SameIdSameRow(faqs: seq<FaqRow>, a: FaqRow, b: FaqRow)
    requires IdsIncreasing(faqs) && a in faqs && b in faqs && a.id == b.id
    ensures a == b
  {
    var i :| 0 <= i < |faqs| && faqs[i] == a;
    var j :| 0 <= j < |faqs| && faqs[j] == b;
    assert i == j;
  }

  /** `delete_faq` at a valid position removes exactly that FAQ from the chat's listing. */
  lemma DeleteRemovesListedFaq(faqs: seq<FaqRow>, chatId: string, index: int)
    requires IdsIncreasing(faqs)
    requires 0 <= index < |FaqsForChat(faqs, chatId)|
    ensures var listed := FaqsForChat(faqs, chatId);
      FaqsForChat(FaqsWithoutId(faqs, listed[index].id), chatId) == listed[..index] + listed[index + 1..]
  {
    var listed := FaqsForChat(faqs, chatId);
    var item := listed[index];
    FaqsForChatOrdered(faqs, chatId);
    ForChatWithoutId(faqs, chatId, item.id);
    assert forall j :: 0 <= j < |listed| && j != index ==> listed[j].id != item.id by {
      forall j | 0 <= j < |listed| && j != index ensures listed[j].id != item.id {
        if j < index { assert listed[j].id < item.id; } else { assert item.id < listed[j].id; }
      }
    }
    WithoutIdAt(listed, index);
  }

  /** … and leaves every other chat's listing as it was. */
  lemma DeleteKeepsOtherChats(faqs: seq<FaqRow>, chatId: string, index: int, other: string)
    requires IdsIncreasing(faqs)
    requires 0 <= index < |FaqsForChat(faqs, chatId)| && other != chatId
    ensures var listed := FaqsForChat(faqs, chatId);
      FaqsForChat(FaqsWithoutId(faqs, listed[index].id), other) == FaqsForChat(faqs, other)
  {
    var listed := FaqsForChat(faqs, chatId);
    var item := listed[index];
    ForChatWithoutId(faqs, other, item.id);
    var theirs := FaqsForChat(faqs, other);
    assert item in listed && item in faqs;
    forall f | f in theirs ensures f.id != item.id {
      if f.id == item.id {
        SameIdSameRow(faqs, f, item);
      }
    }
  }

  /**
   * `delete_faq`: a position outside the chat's listing deletes nothing; a valid one
   * deletes that FAQ by its id and returns its question.
   */
  method DeleteFaq(db: Store, chatId: int, index: int) returns (deleted: Option<string>)
    requires db.Valid()
    modifies db`faqs
    ensures db.Valid()
    ensures var listed := FaqsForChat(old(db.faqs), IntToString(chatId));
      && (!(0 <= index < |listed|) ==> deleted == None && db.faqs == old(db.faqs))
      && (0 <= index < |listed| ==>
            deleted == Some(listed[index].question) && db.faqs == FaqsWithoutId(old(db.faqs), listed[index].id))
  {
    var all := FaqsForChat(db.faqs, IntToString(chatId));
    if !(0 <= index < |all|) {
      return None;
    }
    var item := all[index];
    assert item in all;
    ghost var i :| 0 <= i < |db.faqs| && db.faqs[i] == item;
    var ok := db.DeleteFaq(item.id);
    if ok {
      deleted := Some(item.question);
    } else {
      deleted := None;
    }
  }

  // ---------------------------------------------------------------------------------
  // find_similar_question

  /** The score of a stored FAQ against the lowercased new question. */
  function Score(f: FaqRow, lowered: string, similarity: (string, string) -> real): real {
    similarity(lowered, ToLower(f.question))
  }

  /**
   * The loop of `find_similar_question`: the answer of the first question that scores
   * strictly above every earlier one (starting from 0.0), and that score.
   */
  function BestMatch(faqs: seq<FaqRow>, lowered: string, similarity: (string, string) -> real)
    : (r: (Option<string>, real))
    decreases |faqs|
  {
    if faqs == [] then (None, 0.0)
    else
      var prior := BestMatch(faqs[..|faqs| - 1], lowered, similarity);
      var last := faqs[|faqs| - 1];
      var score := Score(last, lowered, similarity);
      if score > prior.1 then (Some(last.answer), score) else prior
  }

  /** Position `i` holds the first FAQ reaching the best score, and `answer` is its answer. */
  predicate FirstBest(faqs: seq<FaqRow>, lowered: string, similarity: (string, string) -> real,
                      i: int, answer: string, best: real)
  {
    && 0 <= i < |faqs| && faqs[i].answer == answer && Score(faqs[i], lowered, similarity) == best
    && forall j :: 0 <= j < i ==> Score(faqs[j], lowered, similarity) < best
  }

  /**
   * The best score is at least 0.0 and at least every FAQ's score; there is an answer
   * exactly when some FAQ scores above 0.0, and then it is the first best-scoring FAQ's.
   */
  lemma {:induction false} BestMatchSpec(faqs: seq<FaqRow>, lowered: string, similarity: (string, string) -> real)
    ensures var r := BestMatch(faqs, lowered, similarity);
      && r.1 >= 0.0
      && (forall i :: 0 <= i < |faqs| ==> Score(faqs[i], lowered, similarity) <= r.1)
      && (r.0.None? <==> forall i :: 0 <= i < |faqs| ==> Score(faqs[i], lowered, similarity) <= 0.0)
      && (r.0.None? ==> r.1 == 0.0)
      && (r.0.Some? ==> exists i :: FirstBest(faqs, lowered, similarity, i, r.0.value, r.1))
    decreases |faqs|
  {
    if faqs != [] {
      var n := |faqs| - 1;
      var init := faqs[..n];
      BestMatchSpec(init, lowered, similarity);
      var prior := BestMatch(init, lowered, similarity);
      assert forall i :: 0 <= i < n ==> faqs[i] == init[i];
      var score := Score(faqs[n], lowered, similarity);
      if score > prior.1 {
        assert FirstBest(faqs, lowered, similarity, n, faqs[n].answer, score);
      } else if prior.0.Some? {
        var i :| FirstBest(init, lowered, similarity, i, prior.0.value, prior.1);
        assert FirstBest(faqs, lowered, similarity, i, prior.0.value, prior.1);
      }
    }
  }

  /**
   * `find_similar_question` on the chat's FAQs: nothing without FAQs or for an empty
   * question; otherwise the best match's answer when it scores at least the threshold.
   */
  function FindSimilar(faqs: seq<FaqRow>, question: string, similarity: (string, string) -> real)
    : (r: Option<string>)
    ensures faqs == [] || question == [] ==> r == None
  {
    if faqs == [] then None
    else if |question| < 1 then None
    else
      var best := BestMatch(faqs, ToLower(question), similarity);
      if best.1 >= SimilarityThreshold then best.0 else None
  }

  /**
   * There is an answer exactly when the question is non-empty and some FAQ scores at
   * least 0.75, and it is the answer of the first FAQ with the highest score.
   */
  lemma FindSimilarSpec(faqs: seq<FaqRow>, question: string, similarity: (string, string) -> real)
    ensures var r := FindSimilar(faqs, question, similarity);
      && (r.Some? <==>
            (question != [] && exists i :: 0 <= i < |faqs| && Score(faqs[i], ToLower(question), similarity) >= SimilarityThreshold))
      && (r.Some? ==>
            exists i, best :: best >= SimilarityThreshold && FirstBest(faqs, ToLower(question), similarity, i, r.value, best))
  {
    var lowered := ToLower(question);
    BestMatchSpec(faqs, lowered, similarity);
    var best := BestMatch(faqs, lowered, similarity);
    if question != [] && exists i :: 0 <= i < |faqs| && Score(faqs[i], lowered, similarity) >= SimilarityThreshold {
      var i :| 0 <= i < |faqs| && Score(faqs[i], lowered, similarity) >= SimilarityThreshold;
      assert best.1 >= SimilarityThreshold;
    }
    if FindSimilar(faqs, question, similarity).Some? {
      var i :| FirstBest(faqs, lowered, similarity, i, best.0.value, best.1);
      assert Score(faqs[i], lowered, similarity) >= SimilarityThreshold;
    }
  }

  /** `find_similar_question`: the loop over the chat's FAQs keeps the best score so far. */
  method FindSimilarQuestion(db: Store, chatId: int, newQuestion: string, similarity: (string, string) -> real)
    returns (answer: Option<string>)
    ensures answer == FindSimilar(FaqsForChat(db.faqs, IntToString(chatId)), newQuestion, similarity)
  {
    var all := FaqsForChat(db.faqs, IntToString(chatId));
    if all == [] {
      return None;
    }
    var bestAnswer: Option<string> := None;
    var highest: real := 0.0;
    if |newQuestion| < 1 {
      return None;
    }
    var lowered := ToLower(newQuestion);
    for i := 0 to |all|
      invariant (bestAnswer, highest) == BestMatch(all[..i], lowered, similarity)
    {
      assert all[..i + 1][..i] == all[..i];
      var score := similarity(lowered, ToLower(all[i].question));
      if score > highest {
        highest := score;
        bestAnswer := Some(all[i].answer);
      }
    }
    assert all[..|all|] == all;
    if highest >= SimilarityThreshold {
      return bestAnswer;
    }
    return None;
  }
}
