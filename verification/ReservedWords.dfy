/** Words a recorded summary may use only in some states, and where composed text can contain them. */
module ReservedWords {
  import opened Text

  const NARRATION_WORDS: seq<string> := ["planner", "workflow", "semantic", "next step"]
  const SUCCESS_WORDS: seq<string> := ["success", "succeeded", "completed"]
  const FAILURE_WORDS: seq<string> := ["failed", "failure"]
  const CANCELLATION_WORDS: seq<string> := ["canceled", "cancelled"]
  const DEGRADATION_WORDS: seq<string> := ["degraded", "constraint", "constraints", "limited"]

  const RESERVED_WORDS: seq<string> :=
    NARRATION_WORDS + SUCCESS_WORDS + FAILURE_WORDS + CANCELLATION_WORDS + DEGRADATION_WORDS

  predicate Mentions(text: string, word: string) {
    Contains(ToAsciiLowercase(text), word)
  }

  predicate MentionsAny(text: string, words: seq<string>) {
    exists k :: 0 <= k < |words| && Mentions(text, words[k])
  }

  predicate FreeOfReservedWords(text: string) {
    !MentionsAny(text, RESERVED_WORDS)
  }

  lemma MentionsAnyMember(text: string, words: seq<string>)
    ensures MentionsAny(text, words) <==> exists word :: word in words && Mentions(text, word)
  {
    if word :| word in words && Mentions(text, word) {
      var k :| 0 <= k < |words| && words[k] == word;
    }
  }

  /** What all reserved words have in common. */
  lemma ReservedWordShape(word: string)
    requires word in RESERVED_WORDS
    ensures 6 <= |word|
    ensures forall n :: 0 <= n < |word| ==> 'a' <= word[n] <= 'z' || (word[n] == ' ' && word == "next step" && n == 4)
  {
  }

  // ---- Words in composed text --------------------------------------------------------------

  /** The word does not straddle the place where the two texts meet. */
  predicate NoStraddle(a: string, b: string, word: string) {
    forall n :: 0 < n < |word| && n <= |a| && |word| - n <= |b| ==>
      a[|a| - n..] != word[..n] || b[..|word| - n] != word[n..]
  }

  lemma OccurrenceSplits(a: string, b: string, word: string, i: nat)
    requires NoStraddle(a, b, word) && OccursAt(a + b, word, i)
    ensures OccursAt(a, word, i) || (i >= |a| && OccursAt(b, word, i - |a|))
  {
    var whole := a + b;
    if i + |word| <= |a| {
      assert a[i..i + |word|] == whole[i..i + |word|];
    } else if i >= |a| {
      assert b[i - |a|..i - |a| + |word|] == whole[i..i + |word|];
    } else {
      StraddlingShows(a, b, word, i);
    }
  }

  lemma StraddlingShows(a: string, b: string, word: string, i: nat)
    requires OccursAt(a + b, word, i) && i < |a| < i + |word|
    ensures !NoStraddle(a, b, word)
  {
    var whole, n := a + b, |a| - i;
    var window := whole[i..i + |word|];
    assert |a[|a| - n..]| == n && forall k :: 0 <= k < n ==> a[|a| - n..][k] == window[k];
    assert a[|a| - n..] == window[..n];
    assert forall k :: 0 <= k < |word| - n ==> b[k] == window[n + k];
    assert b[..|word| - n] == window[n..];
  }

  lemma ContainedIsKept(before: string, part: string, after: string, word: string)
    requires Contains(part, word)
    ensures Contains(before + part + after, word)
  {
    var i :| 0 <= i <= |part| && OccursAt(part, word, i);
    var whole := before + part + after;
    assert whole[|before| + i..|before| + i + |word|] == part[i..i + |word|];
    assert OccursAt(whole, word, |before| + i);
  }

  /** Text composed of two parts mentions a word exactly when one of the parts does, unless the
      word straddles them. */
  lemma MentionSplits(a: string, b: string, word: string)
    requires NoStraddle(ToAsciiLowercase(a), ToAsciiLowercase(b), word)
    ensures Mentions(a + b, word) <==> Mentions(a, word) || Mentions(b, word)
  {
    var x, y := ToAsciiLowercase(a), ToAsciiLowercase(b);
    assert ToAsciiLowercase(a + b) == x + y;
    if Mentions(a + b, word) {
      var i :| 0 <= i <= |x + y| && OccursAt(x + y, word, i);
      OccurrenceSplits(x, y, word, i);
    }
    assert [] + x + y == x + y && x + y + [] == x + y;
    if Mentions(a, word) {
      ContainedIsKept([], x, y, word);
    }
    if Mentions(b, word) {
      ContainedIsKept(x, y, [], word);
    }
  }

  /** Text after which no reserved word can be under way. */
  predicate Seals(a: string) {
    a != [] && (if a[|a| - 1] == ' ' then |a| > 1 && a[|a| - 2] != 't' && a[|a| - 2] != 'T' else !IsLetter(a[|a| - 1]))
  }

  predicate IsLetter(c: char) {
    'a' <= c <= 'z' || 'A' <= c <= 'Z'
  }

  /** No reserved word can be `n` letters under way at the end of sealed text. */
  lemma SealedTailIsNoStart(lower: string, word: string, n: nat)
    requires Seals(lower) && word in RESERVED_WORDS && 0 < n < |word| && n <= |lower|
    ensures lower[|lower| - n..] != word[..n]
  {
    var tail := lower[|lower| - n..];
    ReservedWordShape(word);
    assert tail[n - 1] == lower[|lower| - 1] && word[..n][n - 1] == word[n - 1];
    if n > 1 {
      assert tail[n - 2] == lower[|lower| - 2] && word[..n][n - 2] == word[n - 2];
    }
    assert word == "next step" ==> word[3] == 't';
  }

  lemma SealedTextSplits(a: string, b: string, word: string)
    requires Seals(a) && word in RESERVED_WORDS
    ensures Mentions(a + b, word) <==> Mentions(a, word) || Mentions(b, word)
  {
    var lower := ToAsciiLowercase(a);
    assert Seals(lower);
    forall n | 0 < n < |word| && n <= |lower| ensures lower[|lower| - n..] != word[..n] {
      SealedTailIsNoStart(lower, word, n);
    }
    MentionSplits(a, b, word);
  }

  /** A separator that no reserved word can run into. */
  predicate Separates(b: string) {
    b != [] && |b| <= 4 && !IsLetter(b[0])
  }

  lemma SeparatedTextSplits(a: string, b: string, word: string)
    requires Separates(b) && word in RESERVED_WORDS
    ensures Mentions(a + b, word) <==> Mentions(a, word)
  {
    ReservedWordShape(word);
    var y := ToAsciiLowercase(b);
    forall n | 0 < n < |word| && |word| - n <= |y| ensures y[..|word| - n] != word[n..] {
      assert y[..|word| - n][0] == y[0] && word[n..][0] == word[n];
    }
    MentionSplits(a, b, word);
    ShortTextMentionsNothing(b, word);
  }

  lemma ShortTextMentionsNothing(text: string, word: string)
    requires |text| < 6 && word in RESERVED_WORDS
    ensures !Mentions(text, word)
  {
    ReservedWordShape(word);
  }

  lemma DigitsMentionNothing(text: string, word: string)
    requires word in RESERVED_WORDS && forall i :: 0 <= i < |text| ==> IsDigit(text[i])
    ensures !Mentions(text, word)
  {
    ReservedWordShape(word);
    var lower := ToAsciiLowercase(text);
    forall i | 0 <= i <= |lower| ensures !OccursAt(lower, word, i) {
      if i + |word| <= |lower| {
        assert lower[i..i + |word|][0] == lower[i];
      }
    }
  }

  // ---- Words in fixed text -----------------------------------------------------------------

  /** Three letters that every mention of the word shows, and where in the word they stand. */
  const STEM_OF: map<string, string> := map[
    "planner" := "nne", "workflow" := "rkf", "semantic" := "ant", "next step" := "xt ", "success" := "ucc",
    "succeeded" := "ucc", "completed" := "mpl", "failed" := "fai", "failure" := "fai", "canceled" := "anc",
    "cancelled" := "anc", "degraded" := "gra", "constraint" := "str", "constraints" := "str", "limited" := "imi"]

  const STEM_AT: map<string, nat> := map[
    "planner" := 3, "workflow" := 2, "semantic" := 3, "next step" := 2, "success" := 1, "succeeded" := 1,
    "completed" := 2,
    "failed" := 0, "failure" := 0, "canceled" := 1, "cancelled" := 1, "degraded" := 2, "constraint" := 3,
    "constraints" := 3, "limited" := 1]

  const STEMS: seq<string> := ["nne", "rkf", "ant", "xt ", "ucc", "mpl", "fai", "anc", "gra", "str", "imi"]
  const SUCCESS_STEMS: seq<string> := ["ucc", "mpl"]
  const CANCELLATION_STEMS: seq<string> := ["anc"]

  /** The stem stands at `i`. */
  predicate ShowsAt(text: string, stem: string, i: nat) {
    |stem| == 3 && i + 2 < |text| && text[i] == stem[0] && text[i + 1] == stem[1] && text[i + 2] == stem[2]
  }

  lemma WordShowsStem(word: string) returns (stem: string, k: nat)
    requires word in RESERVED_WORDS
    ensures stem in STEMS && ShowsAt(word, stem, k)
    ensures word !in SUCCESS_WORDS ==> stem !in SUCCESS_STEMS
    ensures word !in CANCELLATION_WORDS ==> stem !in CANCELLATION_STEMS
  {
    StemsStandInWords(word);
    StemsTellWordsApart(word);
    stem, k := STEM_OF[word], STEM_AT[word];
  }

  lemma StemsStandInWords(word: string)
    requires word in RESERVED_WORDS
    ensures word in STEM_OF && word in STEM_AT && ShowsAt(word, STEM_OF[word], STEM_AT[word])
  {
  }

  lemma StemsTellWordsApart(word: string)
    requires word in RESERVED_WORDS
    ensures word in STEM_OF && STEM_OF[word] in STEMS
    ensures word !in SUCCESS_WORDS ==> STEM_OF[word] !in SUCCESS_STEMS
    ensures word !in CANCELLATION_WORDS ==> STEM_OF[word] !in CANCELLATION_STEMS
  {
  }

  lemma MentionShowsStem(text: string, word: string, stem: string, k: nat, i: nat)
    requires OccursAt(text, word, i) && ShowsAt(word, stem, k)
    ensures ShowsAt(text, stem, i + k)
  {
    var found := text[i..i + |word|];
    assert found[k] == text[i + k] && found[k + 1] == text[i + k + 1] && found[k + 2] == text[i + k + 2];
  }

  predicate IsLowerCase(text: string) {
    forall i :: 0 <= i < |text| ==> !('A' <= text[i] <= 'Z')
  }

  /** Lower-case text that shows none of the stems but those excepted. */
  ghost predicate ShowsOnly(text: string, excepted: seq<string>) {
    IsLowerCase(text) && forall stem :: stem in STEMS && stem !in excepted ==> ShowsNowhere(text, stem)
  }

  ghost predicate ShowsNowhere(text: string, stem: string) {
    forall i: nat :: !ShowsAt(text, stem, i)
  }

  lemma StemlessTextMentionsNothing(text: string, excepted: seq<string>, word: string, stem: string, k: nat)
    requires ShowsOnly(text, excepted) && stem in STEMS && stem !in excepted && ShowsAt(word, stem, k)
    ensures !Mentions(text, word)
  {
    assert ToAsciiLowercase(text) == text;
    assert ShowsNowhere(text, stem);
    forall i | 0 <= i <= |text| ensures !OccursAt(text, word, i) {
      if OccursAt(text, word, i) {
        MentionShowsStem(text, word, stem, k, i);
      }
    }
  }

  lemma PlainTextIsFree(text: string)
    requires ShowsOnly(text, [])
    ensures FreeOfReservedWords(text)
  {
    forall k | 0 <= k < |RESERVED_WORDS| ensures !Mentions(text, RESERVED_WORDS[k]) {
      var stem, n := WordShowsStem(RESERVED_WORDS[k]);
      StemlessTextMentionsNothing(text, [], RESERVED_WORDS[k], stem, n);
    }
  }

  lemma FreeTextMentionsNothing(text: string, word: string)
    requires FreeOfReservedWords(text) && word in RESERVED_WORDS
    ensures !Mentions(text, word)
  {
    MentionsAnyMember(text, RESERVED_WORDS);
  }
}
