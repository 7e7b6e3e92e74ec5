/** UTF-8 text counted in characters, and a summary bound that confuses the two counts. */
module Characters {
  import opened Wrappers
  import opened Text

  /** A byte that continues a multi-byte UTF-8 character. */
  predicate IsContinuation(c: char) {
    128 <= c as int < 192
  }

  /** How many characters a text has: every byte but the continuation bytes starts one. */
  function CharCount(s: string): nat {
    if s == [] then 0
    else CharCount(s[..|s| - 1]) + (if IsContinuation(s[|s| - 1]) then 0 else 1)
  }

  /** The longest prefix of at most `n` whole characters. */
  function TakeChars(s: string, n: nat): (prefix: string)
    ensures prefix <= s && CharCount(prefix) <= n
    ensures CharCount(s) <= n ==> prefix == s
    ensures CharCount(s) > n ==> CharCount(prefix) == n && |prefix| < |s| && !IsContinuation(s[|prefix|])
  {
    if CharCount(s) <= n then s
    else
      var shorter := s[..|s| - 1];
      var prefix := TakeChars(shorter, n);
      assert prefix <= s by {
        assert prefix == shorter[..|prefix|] == s[..|prefix|];
      }
      prefix
  }

  lemma CharCountAppend(s: string, c: char)
    ensures CharCount(s + [c]) == CharCount(s) + (if IsContinuation(c) then 0 else 1)
  {
    assert (s + [c])[..|s|] == s;
  }

  lemma {:induction false} CharCountIsAtMostLength(s: string)
    ensures CharCount(s) <= |s|
  {
    if s != [] {
      CharCountIsAtMostLength(s[..|s| - 1]);
    }
  }

  lemma {:induction false} CharCountSplits(a: string, b: string)
    ensures CharCount(a + b) == CharCount(a) + CharCount(b)
  {
    if b == [] {
      assert a + b == a;
    } else {
      var front := b[..|b| - 1];
      CharCountSplits(a, front);
      assert (a + b)[..|a + b| - 1] == a + front;
    }
  }

  lemma {:induction false} SingleBytesCountAsCharacters(s: string)
    requires forall i :: 0 <= i < |s| ==> !IsContinuation(s[i])
    ensures CharCount(s) == |s|
  {
    if s != [] {
      SingleBytesCountAsCharacters(s[..|s| - 1]);
    }
  }

  // ---- A bound that counts characters and cuts bytes ----------------------------------------

  const CUT: nat := SUMMARY_BOUND - 3

  /** At most 160 characters of a text; a longer one is cut at byte 157, which panics when that
      byte continues a character. */
  function BoundedSummary(text: string): Option<string> {
    var bounded := TakeChars(text, SUMMARY_BOUND);
    CharCountIsAtMostLength(bounded);
    if CharCount(text) <= SUMMARY_BOUND then Some(bounded)
    else if IsContinuation(bounded[CUT]) then None
    else Some(bounded[..CUT] + "...")
  }

  /** The text is too long and byte 157 lies inside a character. */
  predicate IsCutInsideCharacter(text: string) {
    CharCount(text) > SUMMARY_BOUND && |text| > CUT && IsContinuation(text[CUT])
  }

  /** Bounding fails exactly when it would cut inside a character. It returns short text as it
      is and cuts longer text to 160 bytes, so its result keeps the byte bound exactly when the
      text did or has more than 160 characters. */
  lemma BoundedSummaryReturnsExactlyWhen(text: string)
    ensures BoundedSummary(text).None? <==> IsCutInsideCharacter(text)
    ensures CharCount(text) <= SUMMARY_BOUND ==> BoundedSummary(text) == Some(text)
    ensures CharCount(text) > SUMMARY_BOUND && !IsCutInsideCharacter(text) ==>
              |text| > CUT && BoundedSummary(text) == Some(text[..CUT] + "...") &&
                |BoundedSummary(text).value| == SUMMARY_BOUND
    ensures BoundedSummary(text).Some? ==>
              (IsBoundedSummary(BoundedSummary(text).value) <==>
                 text != [] && (|text| <= SUMMARY_BOUND || CharCount(text) > SUMMARY_BOUND))
  {
    CharCountIsAtMostLength(text);
    var bounded := TakeChars(text, SUMMARY_BOUND);
    CharCountIsAtMostLength(bounded);
    if CharCount(text) > SUMMARY_BOUND {
      assert bounded[..CUT] == text[..CUT] && bounded[CUT] == text[CUT];
    }
  }

  /** Text within the byte bound is returned whole. */
  lemma ShortTextIsKept(text: string)
    requires IsBoundedSummary(text)
    ensures BoundedSummary(text) == Some(text)
  {
    CharCountIsAtMostLength(text);
  }

  /** A text of `n` characters of two bytes each. */
  function TwoByteText(n: nat): (text: string)
    ensures |text| == 2 * n
    ensures forall i :: 0 <= i < |text| ==> text[i] == if i % 2 == 0 then '\U{C3}' else '\U{A9}'
  {
    if n == 0 then [] else TwoByteText(n - 1) + ['\U{C3}', '\U{A9}']
  }

  lemma {:induction false} TwoByteTextCount(n: nat)
    ensures CharCount(TwoByteText(n)) == n
  {
    if n > 0 {
      TwoByteTextCount(n - 1);
      CharCountAppend(TwoByteText(n - 1), '\U{C3}');
      CharCountAppend(TwoByteText(n - 1) + ['\U{C3}'], '\U{A9}');
      assert TwoByteText(n) == TwoByteText(n - 1) + ['\U{C3}'] + ['\U{A9}'];
    }
  }

  /** Behind 46 bytes of plain text, 120 such characters are cut inside one of them; 100 are
      returned whole, past the byte bound. */
  lemma TwoByteTextBehind(plain: string)
    requires |plain| == 46 && forall i :: 0 <= i < |plain| ==> !IsContinuation(plain[i])
    ensures IsCutInsideCharacter(plain + TwoByteText(120))
    ensures !IsCutInsideCharacter(plain + TwoByteText(100)) && |plain + TwoByteText(100)| > SUMMARY_BOUND
    ensures CharCount(plain + TwoByteText(100)) <= SUMMARY_BOUND
  {
    SingleBytesCountAsCharacters(plain);
    forall n: nat ensures CharCount(plain + TwoByteText(n)) == |plain| + n {
      CharCountSplits(plain, TwoByteText(n));
      TwoByteTextCount(n);
    }
    var text := TwoByteText(120);
    assert (plain + text)[CUT] == text[CUT - |plain|] == '\U{A9}';
  }
}
