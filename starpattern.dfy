/** The two regular expressions `findStarCount` (github-filter/filter.js) uses to pull a
    star count out of free text, both case-insensitive:

      line 310, over the item's text:       `(\d+\.?\d*[km]?)\s*stars?`
      line 320, over an `aria-label`:       `(\d+\.?\d*[km]?)\s*(?:star|user)`

    Both are a number token, optional whitespace and a word; the result is the number
    token. `StarWords` and `AriaWords` are the words each accepts (the optional trailing
    `s` of `stars?` never changes whether or where a match is found, so it is dropped).
    A match is searched at every start position from the left; at one start position
    the greedy reading is the only one that can succeed (`MatchUnique`). */
module StarPattern {
  import opened Wrappers
  import opened JsText

  const StarWords: seq<string> := ["star"]
  const AriaWords: seq<string> := ["star", "user"]

  /** `[km]` under the case-insensitive flag. */
  predicate IsScaleLetter(c: char) {
    c == 'k' || c == 'm' || c == 'K' || c == 'M'
  }

  /** A lower-case word that cannot continue a number token: its first letter is not a
      scale letter. */
  predicate IsWord(w: string) {
    && w != []
    && (forall k | 0 <= k < |w| :: 'a' <= w[k] <= 'z')
    && w[0] != 'k' && w[0] != 'm'
  }

  /** One of `words` starts at `w`, compared case-insensitively. */
  predicate WordAt(s: string, w: nat, words: seq<string>)
    requires w <= |s|
  {
    exists k | 0 <= k < |words| :: w + |words[k]| <= |s| && Lower(s[w..w + |words[k]|]) == words[k]
  }

  /** The end of the longest number token `\d+\.?\d*[km]?` at `i`, reading greedily:
      digits, a point, digits, a scale letter. */
  function TokenEnd(s: string, i: nat): (e: nat)
    requires i <= |s|
    ensures i <= e <= |s|
  {
    var j1 := DigitsEnd(s, i);
    var j2 := if j1 < |s| && s[j1] == '.' then j1 + 1 else j1;
    var j3 := DigitsEnd(s, j2);
    if j3 < |s| && IsScaleLetter(s[j3]) then j3 + 1 else j3
  }

  /** The greedy reading at start `i`: the end of the number token when the whole
      pattern matches there. */
  function MatchEnd(s: string, i: nat, words: seq<string>): (r: Option<nat>)
    requires i <= |s|
    ensures r.Some? ==> i < r.value <= |s|
  {
    var e := TokenEnd(s, i);
    if DigitsEnd(s, i) > i && WordAt(s, SpaceEnd(s, e), words) then Some(e) else None
  }

  predicate DigitRun(s: string, i: nat, j: nat)
    requires i <= j <= |s|
  {
    forall k | i <= k < j :: IsDigit(s[k])
  }

  predicate SpaceRun(s: string, i: nat, j: nat)
    requires i <= j <= |s|
  {
    forall k | i <= k < j :: IsSpace(s[k])
  }

  /** One way, backtracking included, for the pattern to match at `i`: digits `i..j1`,
      an optional point `j1..j2`, digits `j2..j3`, an optional scale letter `j3..e`,
      whitespace `e..w`, and a word at `w`. The number token is `s[i..e]`. */
  predicate Accepts(s: string, i: nat, j1: nat, j2: nat, j3: nat, e: nat, w: nat, words: seq<string>)
  {
    && i < j1 <= j2 <= j3 <= e <= w <= |s|
    && DigitRun(s, i, j1)
    && (j2 == j1 || (j2 == j1 + 1 && s[j1] == '.'))
    && DigitRun(s, j2, j3)
    && (e == j3 || (e == j3 + 1 && IsScaleLetter(s[j3])))
    && SpaceRun(s, e, w)
    && WordAt(s, w, words)
  }

  /** The greedy reading is a reading. */
  lemma MatchSound(s: string, i: nat, words: seq<string>)
    requires i <= |s| && MatchEnd(s, i, words).Some?
    ensures exists j1, j2, j3, w | i <= j1 <= j2 <= j3 <= w <= |s| ::
      Accepts(s, i, j1, j2, j3, MatchEnd(s, i, words).value, w, words)
  {
    var j1 := DigitsEnd(s, i);
    var j2 := if j1 < |s| && s[j1] == '.' then j1 + 1 else j1;
    var j3 := DigitsEnd(s, j2);
    var e := TokenEnd(s, i);
    assert e == if j3 < |s| && IsScaleLetter(s[j3]) then j3 + 1 else j3;
    var w := SpaceEnd(s, e);
    assert MatchEnd(s, i, words).value == e;
    assert DigitRun(s, i, j1) && DigitRun(s, j2, j3) && SpaceRun(s, e, w);
    assert Accepts(s, i, j1, j2, j3, e, w, words);
  }

  /** Every reading at `i` ends its number token where the greedy one does: backtracking
      can never produce a different result, because a word never starts with a digit, a
      point, a scale letter or whitespace. */
  lemma MatchUnique(s: string, i: nat, j1: nat, j2: nat, j3: nat, e: nat, w: nat, words: seq<string>)
    requires forall k | 0 <= k < |words| :: IsWord(words[k])
    requires Accepts(s, i, j1, j2, j3, e, w, words)
    ensures MatchEnd(s, i, words) == Some(e)
  {
    WordStartsWithLetter(s, w, words);
    // What follows the number token is whitespace or the word: not a digit, not a point,
    // not a scale letter.
    assert e == |s| || StopsToken(s[e]) by {
      if e < w { assert IsSpace(s[e]); }
    }
    if e == j3 {
      TokenEndPlain(s, i, j1, j2, j3);
    } else {
      assert j3 < |s| && IsScaleLetter(s[j3]);
      TokenEndScaled(s, i, j1, j2, j3);
    }
    SpaceEndAt(s, e, w);
    assert IsDigit(s[i]);
  }

  /** The words of both of the script's patterns meet `MatchUnique`'s condition, so the
      greedy reading is the only one for `star` and for `star|user`. */
  lemma ScriptWordsAreWords()
    ensures forall k | 0 <= k < |StarWords| :: IsWord(StarWords[k])
    ensures forall k | 0 <= k < |AriaWords| :: IsWord(AriaWords[k])
  {
  }

  /** A character that cannot continue a number token. */
  predicate StopsToken(c: char) {
    !IsDigit(c) && c != '.' && !IsScaleLetter(c)
  }

  /** A reading whose token ends with its digits, followed by what cannot extend it. */
  lemma TokenEndPlain(s: string, i: nat, j1: nat, j2: nat, j3: nat)
    requires i < j1 <= j2 <= j3 <= |s|
    requires DigitRun(s, i, j1) && DigitRun(s, j2, j3)
    requires j2 == j1 || (j2 == j1 + 1 && s[j1] == '.')
    requires j3 == |s| || StopsToken(s[j3])
    ensures TokenEnd(s, i) == j3
  {
    if j2 == j1 {
      assert DigitRun(s, i, j3);
      DigitsEndAt(s, i, j3);
      DigitsEndAt(s, j3, j3);
    } else {
      DigitsEndAt(s, i, j1);
      DigitsEndAt(s, j2, j3);
    }
  }

  /** A reading whose token ends with a scale letter, followed by what cannot extend it. */
  lemma TokenEndScaled(s: string, i: nat, j1: nat, j2: nat, j3: nat)
    requires i < j1 <= j2 <= j3 < |s|
    requires DigitRun(s, i, j1) && DigitRun(s, j2, j3)
    requires j2 == j1 || (j2 == j1 + 1 && s[j1] == '.')
    requires IsScaleLetter(s[j3])
    ensures TokenEnd(s, i) == j3 + 1
  {
    if j2 == j1 {
      assert DigitRun(s, i, j3);
      DigitsEndAt(s, i, j3);
      DigitsEndAt(s, j3, j3);
    } else {
      DigitsEndAt(s, i, j1);
      DigitsEndAt(s, j2, j3);
    }
  }

  /** The character at `w` cannot be part of a number token or of whitespace. */
  predicate NotNumberChar(s: string, w: nat) {
    w < |s| && !IsDigit(s[w]) && s[w] != '.' && !IsScaleLetter(s[w]) && !IsSpace(s[w])
  }

  lemma WordStartsWithLetter(s: string, w: nat, words: seq<string>)
    requires w <= |s| && WordAt(s, w, words)
    requires forall k | 0 <= k < |words| :: IsWord(words[k])
    ensures NotNumberChar(s, w)
  {
    var k :| 0 <= k < |words| && w + |words[k]| <= |s| && Lower(s[w..w + |words[k]|]) == words[k];
    var word := words[k];
    LowerPointwise(s[w..w + |word|]);
    assert LowerChar(s[w]) == word[0];
  }

  /** The greedy reading at every start position, `None` past the end of `s`. */
  function Readings(s: string, words: seq<string>): nat -> Option<nat>
  {
    (k: nat) => if k <= |s| then MatchEnd(s, k, words) else None
  }

  /** The leftmost `k` in `from..n` where `hit` gives a value, with that value. */
  function FirstSome(hit: nat -> Option<nat>, from: nat, n: nat): (r: Option<(nat, nat)>)
    requires from <= n
    ensures r.Some? ==> from <= r.value.0 < n && hit(r.value.0) == Some(r.value.1)
    decreases n - from
  {
    if from == n then None
    else match hit(from)
      case Some(e) => Some((from, e))
      case None => FirstSome(hit, from + 1, n)
  }

  /** The position found is the leftmost one, and none is found only when `hit` gives
      nothing anywhere in `from..n`. */
  lemma {:induction false} FirstSomeLeftmost(hit: nat -> Option<nat>, from: nat, n: nat)
    requires from <= n
    ensures FirstSome(hit, from, n).Some? ==>
      forall k | from <= k < FirstSome(hit, from, n).value.0 :: hit(k).None?
    ensures FirstSome(hit, from, n).None? ==> forall k | from <= k < n :: hit(k).None?
    decreases n - from
  {
    if from < n {
      FirstSomeLeftmost(hit, from + 1, n);
    }
  }

  /** The leftmost start at or after `from` where the pattern matches, with the end of
      its number token. */
  function FirstMatch(s: string, from: nat, words: seq<string>): (r: Option<(nat, nat)>)
    requires from <= |s|
    ensures r.Some? ==> from <= r.value.0 < r.value.1 <= |s|
    ensures r.Some? ==> MatchEnd(s, r.value.0, words) == Some(r.value.1)
  {
    FirstSome(Readings(s, words), from, |s|)
  }

  /** The match found is the leftmost one, and none is found only when there is none. */
  lemma FirstMatchLeftmost(s: string, from: nat, words: seq<string>)
    requires from <= |s|
    ensures FirstMatch(s, from, words).Some? ==>
      forall k | from <= k < FirstMatch(s, from, words).value.0 :: MatchEnd(s, k, words).None?
    ensures FirstMatch(s, from, words).None? ==>
      forall k | from <= k < |s| :: MatchEnd(s, k, words).None?
  {
    var hit := Readings(s, words);
    FirstSomeLeftmost(hit, from, |s|);
    assert forall k | from <= k < |s| :: hit(k) == MatchEnd(s, k, words);
  }

  /** `s.match(pattern)?.[1]`: the number token of the leftmost match. */
  function Capture(s: string, words: seq<string>): (r: Option<string>)
  {
    match FirstMatch(s, 0, words)
    case Some((b, e)) => Some(s[b..e])
    case None => None
  }

  /** The shape of what the patterns capture: digits, an optional point and digits, and
      an optional scale letter. */
  predicate IsNumberToken(t: string) {
    exists j1, j2, j3 | 0 < j1 <= j2 <= j3 <= |t| ::
      && DigitRun(t, 0, j1)
      && (j2 == j1 || (j2 == j1 + 1 && t[j1] == '.'))
      && DigitRun(t, j2, j3)
      && (|t| == j3 || (|t| == j3 + 1 && IsScaleLetter(t[j3])))
  }

  /** A capture is a number token taken from the leftmost position where the pattern
      matches, and nothing is captured only when the pattern matches nowhere. */
  lemma CaptureSpec(s: string, words: seq<string>)
    ensures Capture(s, words).Some? ==>
      && IsNumberToken(Capture(s, words).value)
      && exists b | 0 <= b < |s| ::
           && (forall k | 0 <= k < b :: MatchEnd(s, k, words).None?)
           && MatchEnd(s, b, words).Some?
           && Capture(s, words).value == s[b..MatchEnd(s, b, words).value]
    ensures Capture(s, words).None? <==> forall k | 0 <= k < |s| :: MatchEnd(s, k, words).None?
  {
    FirstMatchLeftmost(s, 0, words);
    match FirstMatch(s, 0, words)
    case Some((b, e)) =>
      ReadingToken(s, b, e, words);
      assert Capture(s, words).value == s[b..MatchEnd(s, b, words).value];
    case None =>
  }

  /** What a successful reading spans is a number token. */
  lemma ReadingToken(s: string, b: nat, e: nat, words: seq<string>)
    requires b <= |s| && MatchEnd(s, b, words) == Some(e)
    ensures IsNumberToken(s[b..e])
  {
    MatchSound(s, b, words);
    var j1, j2, j3, w :| b <= j1 <= j2 <= j3 <= w <= |s| && Accepts(s, b, j1, j2, j3, e, w, words);
    TokenOfReading(s, b, j1, j2, j3, e, w, words);
  }

  /** The number token of a reading has the shape of a number token. */
  lemma TokenOfReading(s: string, i: nat, j1: nat, j2: nat, j3: nat, e: nat, w: nat, words: seq<string>)
    requires Accepts(s, i, j1, j2, j3, e, w, words)
    ensures IsNumberToken(s[i..e])
  {
    var t := s[i..e];
    assert DigitRun(t, 0, j1 - i);
    assert DigitRun(t, j2 - i, j3 - i);
    assert j2 == j1 + 1 ==> t[j1 - i] == '.';
    assert e == j3 + 1 ==> t[j3 - i] == s[j3];
  }
}
