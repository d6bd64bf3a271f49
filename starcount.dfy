/** `parseStarCount` (github-filter/filter.js): turns the text found for a repository into
    a star count. A `k` or `m` suffix scales by a thousand or a million; otherwise the
    first comma is dropped and an unparseable text counts as zero. In the suffix branches
    an unparseable prefix gives `NaN`, modelled as `None`. */
module StarCount {
  import opened Wrappers
  import opened JsText
  import opened JsNumbers

  /** `text.trim().toLowerCase()`. */
  function Normalize(s: string): string {
    Lower(Trim(s))
  }

  /** Multiplies a parsed number by `factor`; `NaN` stays `NaN`. */
  function Scale(x: Option<real>, factor: real): (r: Option<real>)
    ensures r.None? <==> x.None?
  {
    match x
    case None => None
    case Some(v) => Some(v * factor)
  }

  /** The star count of `text` (`None` is a JavaScript `null`); the result `None` is `NaN`. */
  function ParseStarCount(text: Option<string>): (r: Option<real>)
    ensures text.None? || text == Some("") ==> r == Some(0.0)
    ensures r.None? ==>
              && text.Some?
              && (EndsWith(Normalize(text.value), 'k') || EndsWith(Normalize(text.value), 'm'))
  {
    if text.None? || text.value == "" then Some(0.0)
    else
      var t := Normalize(text.value);
      if EndsWith(t, 'k') then Scale(ParseFloat(RemoveFirst(t, 'k')), 1000.0)
      else if EndsWith(t, 'm') then Scale(ParseFloat(RemoveFirst(t, 'm')), 1000000.0)
      else Some(ParseFloat(RemoveFirst(t, ',')).GetOr(0.0))
  }

  /** The suffix branches, for a text whose normal form `n` ends in `c`. */
  lemma SuffixBranch(s: string, n: string, c: char, x: Option<real>, factor: real)
    requires s != [] && (c == 'k' || c == 'm') && Normalize(s) == n && EndsWith(n, c)
    requires ParseFloat(RemoveFirst(n, c)) == x
    requires factor == if c == 'k' then 1000.0 else 1000000.0
    ensures ParseStarCount(Some(s)) == Scale(x, factor)
  {
  }

  /** The branch without a suffix. */
  lemma PlainBranch(s: string, x: Option<real>)
    requires s != [] && !EndsWith(Normalize(s), 'k') && !EndsWith(Normalize(s), 'm')
    requires ParseFloat(RemoveFirst(Normalize(s), ',')) == x
    ensures ParseStarCount(Some(s)) == Some(x.GetOr(0.0))
  {
  }

  predicate IsSuffix(c: char) {
    c == 'k' || c == 'K' || c == 'm' || c == 'M'
  }

  /** A text made of digits, points and commas only. */
  predicate NumericText(t: string) {
    forall k | 0 <= k < |t| :: IsDigit(t[k]) || t[k] == '.' || t[k] == ','
  }

  /** Lower-casing distributes over concatenation. */
  lemma LowerAppend(a: string, b: string)
    ensures Lower(a + b) == Lower(a) + Lower(b)
  {
    LowerPointwise(a + b);
    LowerPointwise(a);
    LowerPointwise(b);
    assert forall i | 0 <= i < |a + b| :: Lower(a + b)[i] == (Lower(a) + Lower(b))[i] by {
      forall i | 0 <= i < |a + b|
        ensures Lower(a + b)[i] == (Lower(a) + Lower(b))[i]
      {
        if i >= |a| { assert (a + b)[i] == b[i - |a|]; }
      }
    }
  }

  /** Normalising a text that starts with a digit and ends with `last` keeps it, except
      that an upper-case `last` is lower-cased. */
  lemma NormalizeNumeric(t: string, last: seq<char>)
    requires t != [] && IsDigit(t[0]) && NumericText(t)
    requires |last| <= 1 && (last != [] ==> !IsSpace(last[0]))
    requires last == [] ==> !IsSpace(t[|t| - 1])
    ensures Normalize(t + last) == t + Lower(last)
  {
    TrimNumeric(t, last);
    LowerNumeric(t, last);
  }

  lemma TrimNumeric(t: string, last: seq<char>)
    requires t != [] && IsDigit(t[0])
    requires |last| <= 1 && (last != [] ==> !IsSpace(last[0]))
    requires last == [] ==> !IsSpace(t[|t| - 1])
    ensures Trim(t + last) == t + last
  {
    var s := t + last;
    if last != [] {
      assert s[|s| - 1] == last[0];
    }
    assert s[0] == t[0];
    TrimOfTrimmed(s);
  }

  lemma LowerNumeric(t: string, last: seq<char>)
    requires NumericText(t)
    ensures Lower(t + last) == t + Lower(last)
  {
    LowerAppend(t, last);
    assert forall i | 0 <= i < |t| :: !IsUpper(t[i]);
    LowerOfLowerCase(t);
  }

  /** A plain decimal number is numeric text starting with a digit. */
  lemma DecimalTextIsNumeric(d: string, f: string)
    requires d != [] && AllDigits(d) && AllDigits(f)
    ensures var t := DecimalText(d, f);
      t != [] && IsDigit(t[0]) && NumericText(t) && !IsSpace(t[|t| - 1]) && ',' !in t
  {
    var t := DecimalText(d, f);
    assert t[0] == d[0];
    forall k | 0 <= k < |t| ensures IsDigit(t[k]) || t[k] == '.' {
      if k >= |d| + 1 { assert t[k] == f[k - |d| - 1]; }
    }
  }

  /** The factor a suffix letter stands for, in either case. */
  function SuffixFactor(c: char): real
  {
    if c == 'k' || c == 'K' then 1000.0 else 1000000.0
  }

  /** A number followed by a suffix letter is scaled by that suffix's factor: a
      thousand for `k` or `K`, a million for `m` or `M`. */
  lemma ParseStarCountSuffix(d: string, f: string, c: char)
    requires d != [] && AllDigits(d) && AllDigits(f) && IsSuffix(c)
    ensures ParseStarCount(Some(DecimalText(d, f) + [c])) == Scale(Some(DecimalValue(d, f)), SuffixFactor(c))
  {
    SuffixPrefix(d, f, c, DecimalText(d, f));
    ScaledPrefix(DecimalText(d, f), c, Some(DecimalValue(d, f)));
  }

  /** A plain decimal number meets what `ScaledPrefix` asks of the text before the
      suffix letter. */
  lemma SuffixPrefix(d: string, f: string, c: char, t: string)
    requires d != [] && AllDigits(d) && AllDigits(f) && IsSuffix(c) && t == DecimalText(d, f)
    ensures t != [] && !IsSpace(t[0]) && LowerChar(c) !in Lower(t)
    ensures ParseFloat(Lower(t)) == Some(DecimalValue(d, f))
  {
    LowerDecimal(d, f);
    SuffixLower(c);
    LetterNotNumeric(t, LowerChar(c));
    LowerDecimalParse(d, f, t);
  }

  /** `parseFloat` of a lower-cased plain decimal number is its value. */
  lemma LowerDecimalParse(d: string, f: string, t: string)
    requires d != [] && AllDigits(d) && AllDigits(f)
    requires t == DecimalText(d, f) && Lower(t) == t
    ensures ParseFloat(Lower(t)) == Some(DecimalValue(d, f))
  {
    ParseFloatOfDecimal(d, f);
  }

  /** A plain decimal number is numeric text, starts with a digit and is its own lower
      case. */
  lemma LowerDecimal(d: string, f: string)
    requires d != [] && AllDigits(d) && AllDigits(f)
    ensures var t := DecimalText(d, f);
      t != [] && IsDigit(t[0]) && NumericText(t) && Lower(t) == t
  {
    var t := DecimalText(d, f);
    DecimalTextIsNumeric(d, f);
    LowerNumeric(t, []);
    assert t + [] == t;
  }

  /** A suffix letter lower-cases to `k` or `m`. */
  lemma SuffixLower(c: char)
    requires IsSuffix(c)
    ensures LowerChar(c) == 'k' || LowerChar(c) == 'm'
  {
  }

  /** Any text `t` that does not start with whitespace, followed by a suffix letter, counts
      `parseFloat` of `t` lower-cased, times the suffix's factor, provided lower-cased `t`
      holds no copy of the lower-cased suffix letter (otherwise `replace` would remove that
      copy instead). */
  lemma ScaledPrefix(t: string, c: char, x: Option<real>)
    requires t != [] && !IsSpace(t[0]) && IsSuffix(c)
    requires LowerChar(c) !in Lower(t)
    requires ParseFloat(Lower(t)) == x
    ensures ParseStarCount(Some(t + [c])) == Scale(x, SuffixFactor(c))
  {
    var lc := LowerChar(c);
    NormalizeSuffixed(t, c);
    RemoveFirstAtEnd(Lower(t), lc);
    assert EndsWith(Lower(t) + [lc], lc);
    SuffixBranch(t + [c], Lower(t) + [lc], lc, x, SuffixFactor(c));
  }

  /** Normalising a text that does not start with whitespace, followed by a suffix letter,
      lower-cases both. */
  lemma NormalizeSuffixed(t: string, c: char)
    requires t != [] && !IsSpace(t[0]) && IsSuffix(c)
    ensures Normalize(t + [c]) == Lower(t) + [LowerChar(c)]
  {
    var s := t + [c];
    assert s[0] == t[0] && s[|s| - 1] == c;
    TrimOfTrimmed(s);
    LowerAppend(t, [c]);
    assert Lower([c]) == [LowerChar(c)];
  }

  /** `parseFloat` reads a plain decimal number as its value. */
  lemma ParseFloatOfDecimal(d: string, f: string)
    requires d != [] && AllDigits(d) && AllDigits(f)
    ensures ParseFloat(DecimalText(d, f)) == Some(DecimalValue(d, f))
  {
    ParseFloatDecimal(d, f, []);
    assert DecimalText(d, f) + [] == DecimalText(d, f);
  }

  /** A letter does not occur in numeric text. */
  lemma LetterNotNumeric(t: string, c: char)
    requires NumericText(t) && (c == 'k' || c == 'm')
    ensures c !in t
  {
  }

  /** Dropping the first `c` from `t + [c]` when `t` holds no `c`. */
  lemma RemoveFirstAtEnd(t: string, c: char)
    requires c !in t
    ensures RemoveFirst(t + [c], c) == t
  {
    var s := t + [c];
    assert s[|t|] == c;
    var r := IndexOf(s, c);
    assert forall k | 0 <= k < |t| :: s[k] == t[k];
    assert r.value == |t|;
    assert s[..|t|] == t;
  }

  /** A plain number, with or without a fraction, is read as it is. */
  lemma ParseStarCountPlain(d: string, f: string)
    requires d != [] && AllDigits(d) && AllDigits(f)
    ensures ParseStarCount(Some(DecimalText(d, f))) == Some(DecimalValue(d, f))
  {
    var t := DecimalText(d, f);
    assert Normalize(t) == t && RemoveFirst(t, ',') == t by {
      DecimalTextIsNumeric(d, f);
      NormalizeNumeric(t, []);
      assert t + [] == t;
      assert Lower([]) == [];
    }
    assert ParseFloat(t) == Some(DecimalValue(d, f)) by {
      ParseFloatDecimal(d, f, []);
      assert t + [] == t;
    }
    PlainBranch(t, Some(DecimalValue(d, f)));
  }

  /** A numeric text starting with a digit and ending in one is its own normal form. */
  lemma NormalizeDigitsAndCommas(t: string)
    requires t != [] && IsDigit(t[0]) && IsDigit(t[|t| - 1]) && NumericText(t)
    ensures Normalize(t) == t
  {
    NormalizeNumeric(t, []);
    assert t + [] == t;
    assert Lower([]) == [];
  }

  /** A thousands separator is dropped: `5,200` reads as the digits `5200`. */
  lemma ParseStarCountThousands(a: string, b: string)
    requires a != [] && b != [] && AllDigits(a) && AllDigits(b)
    ensures AllDigits(a + b)
    ensures ParseStarCount(Some(a + [','] + b)) == Some(DigitsValue(a + b) as real)
  {
    assert NumericText(b);
    DigitsCommaText(a, b);
    DigitsValueAppend(a, b);
    ParseFloatWhole(a + b, []);
    assert (a + b) + [] == a + b;
    CommaBranch(a + [','] + b, a + b, DigitsValue(a + b) as real);
  }

  /** `a,rest` with digits before the comma and a numeric `rest` ending in a digit is its
      own normal form, and dropping its first comma gives `a + rest`. */
  lemma DigitsCommaText(a: string, rest: string)
    requires a != [] && AllDigits(a) && rest != [] && NumericText(rest) && IsDigit(rest[|rest| - 1])
    ensures var t := a + [','] + rest;
      && IsDigit(t[|t| - 1]) && Normalize(t) == t
      && RemoveFirst(t, ',') == a + rest
  {
    var t := a + [','] + rest;
    assert t[|t| - 1] == rest[|rest| - 1];
    forall k | 0 <= k < |t| ensures IsDigit(t[k]) || t[k] == '.' || t[k] == ',' {
      if k > |a| { assert t[k] == rest[k - |a| - 1]; }
    }
    assert t[0] == a[0];
    NormalizeDigitsAndCommas(t);
    RemoveFirstAfterDigits(a, rest);
  }

  /** `parseFloat` reads a run of digits followed by what cannot extend it. */
  lemma ParseFloatWhole(d: string, rest: string)
    requires d != [] && AllDigits(d)
    requires rest == [] || (StopsLiteral(rest[0]) && rest[0] != '.')
    ensures ParseFloat(d + rest) == Some(DigitsValue(d) as real)
  {
    ParseFloatDecimal(d, [], rest);
    assert DecimalText(d, []) == d;
    DecimalValueWhole(d);
  }

  /** The branch without a suffix, for a text that is its own normal form and ends in
      a digit. */
  lemma CommaBranch(t: string, u: string, x: real)
    requires t != [] && IsDigit(t[|t| - 1]) && Normalize(t) == t
    requires RemoveFirst(t, ',') == u && ParseFloat(u) == Some(x)
    ensures ParseStarCount(Some(t)) == Some(x)
  {
    PlainBranch(t, Some(x));
  }

  /** Dropping the first comma of `a,rest` when `a` is all digits. */
  lemma RemoveFirstAfterDigits(a: string, rest: string)
    requires AllDigits(a)
    ensures RemoveFirst(a + [','] + rest, ',') == a + rest
  {
    var t := a + [','] + rest;
    assert t[|a|] == ',';
    var r := IndexOf(t, ',');
    assert forall k | 0 <= k < |a| :: t[k] == a[k];
    assert r.value <= |a| by {
      assert t[..|a| + 1][|a|] == ',';
    }
    assert r.value == |a|;
    assert t[..|a|] == a;
    assert t[|a| + 1..] == rest;
  }

  /** Only the FIRST comma is dropped: in `a,b,c` the second comma ends the number, so
      `1,234,567` reads as 1234. */
  lemma ParseStarCountSecondCommaStops(a: string, b: string, c: string)
    requires a != [] && c != [] && AllDigits(a) && AllDigits(b) && AllDigits(c)
    ensures AllDigits(a + b)
    ensures ParseStarCount(Some(a + [','] + b + [','] + c)) == Some(DigitsValue(a + b) as real)
  {
    var rest := b + [','] + c;
    NumericTail(b, c);
    DigitsCommaText(a, rest);
    CommaRegroup(a, b, c);
    ParseFloatBeforeComma(a + b, c);
    CommaBranch(a + [','] + rest, a + rest, DigitsValue(a + b) as real);
  }

  /** `b,c` with `c` a non-empty digit run is numeric text ending in a digit. */
  lemma NumericTail(b: string, c: string)
    requires c != [] && AllDigits(b) && AllDigits(c)
    ensures var rest := b + [','] + c;
      rest != [] && NumericText(rest) && IsDigit(rest[|rest| - 1])
  {
    var rest := b + [','] + c;
    forall k | 0 <= k < |rest| ensures IsDigit(rest[k]) || rest[k] == '.' || rest[k] == ',' {
      if k > |b| { assert rest[k] == c[k - |b| - 1]; }
    }
    assert rest[|rest| - 1] == c[|c| - 1];
  }

  /** A comma ends the number `parseFloat` reads. */
  lemma ParseFloatBeforeComma(d: string, c: string)
    requires d != [] && AllDigits(d)
    ensures ParseFloat(d + ([','] + c)) == Some(DigitsValue(d) as real)
  {
    assert StopsLiteral(',');
    ParseFloatWhole(d, [','] + c);
  }

  /** The regroupings of `a,b,c` the proof above relies on. */
  lemma CommaRegroup(a: string, b: string, c: string)
    ensures a + [','] + (b + [','] + c) == a + [','] + b + [','] + c
    ensures a + (b + [','] + c) == (a + b) + ([','] + c)
    ensures ([','] + c)[0] == ','
  {
  }

  /** Padding and letter case do not change the count. */
  lemma ParseStarCountNormalized(s: string)
    ensures ParseStarCount(Some(s)) == ParseStarCount(Some(Normalize(s)))
  {
    var t := Normalize(s);
    if s != [] && t != [] {
      NormalizeIdempotent(s);
      SameNormalForm(s, t);
    } else if s != [] {
      assert RemoveFirst(t, ',') == [];
      assert ParseFloat([]) == None;
    }
  }

  /** Trimming and lower-casing a second time changes nothing. */
  lemma NormalizeIdempotent(s: string)
    ensures Normalize(Normalize(s)) == Normalize(s)
  {
    var u := Trim(s);
    var t := Lower(u);
    if t != [] {
      assert !IsSpace(t[0]) && !IsSpace(t[|t| - 1]) by {
        TrimSpec(s);
        LowerPointwise(u);
      }
      TrimOfTrimmed(t);
    } else {
      assert Trim(t) == [];
    }
    LowerIdempotent(u);
  }

  /** Only the normal form of a non-empty text decides its count. */
  lemma SameNormalForm(s: string, u: string)
    requires s != [] && u != [] && Normalize(s) == Normalize(u)
    ensures ParseStarCount(Some(s)) == ParseStarCount(Some(u))
  {
  }

  /** `5,200` reads as 5200. */
  lemma ExampleThousands(s: string)
    requires s == "5,200"
    ensures ParseStarCount(Some(s)) == Some(5200.0)
  {
    var a, b := "5", "200";
    assert s == a + [','] + b;
    DigitsOf5200(a + b);
    ParseStarCountThousands(a, b);
  }

  lemma DigitsOf5200(d: string)
    requires d == "5200"
    ensures AllDigits(d) && DigitsValue(d) == 5200
  {
    DigitsValueOfNatToString(5200);
    assert NatToString(5) == "5";
    assert NatToString(52) == "52";
    assert NatToString(520) == "520";
    assert NatToString(5200) == "5200";
  }

  /** `1.2k` reads as 1200. */
  lemma ExampleThousandSuffix(s: string)
    requires s == "1.2k"
    ensures ParseStarCount(Some(s)) == Some(1200.0)
  {
    var d, f, k := "1", "2", 'k';
    OnePointTwo(d, f);
    assert s == DecimalText(d, f) + [k];
    ParseStarCountSuffix(d, f, k);
  }

  lemma OnePointTwo(d: string, f: string)
    requires d == "1" && f == "2"
    ensures AllDigits(d) && AllDigits(f) && DecimalText(d, f) == "1.2" && DecimalValue(d, f) == 1.2
  {
    assert d == ['1'] && f == ['2'];
    DigitsValueSingle('1');
    DigitsValueSingle('2');
    DecimalValueTenths(d, f);
  }

  /** One fractional digit counts tenths. */
  lemma DecimalValueTenths(d: string, f: string)
    requires AllDigits(d) && AllDigits(f) && |f| == 1
    ensures DecimalValue(d, f) == DigitsValue(d) as real + DigitsValue(f) as real / 10.0
  {
    assert Pow10(1) == 10;
  }

  /** `3m` reads as 3000000. */
  lemma ExampleMillionSuffix(s: string)
    requires s == "3m"
    ensures ParseStarCount(Some(s)) == Some(3000000.0)
  {
    var d, f, m := "3", "", 'm';
    ThreeWhole(d, f);
    assert s == DecimalText(d, f) + [m];
    ParseStarCountSuffix(d, f, m);
  }

  lemma ThreeWhole(d: string, f: string)
    requires d == "3" && f == ""
    ensures AllDigits(d) && AllDigits(f) && DecimalText(d, f) == "3" && DecimalValue(d, f) == 3.0
  {
    assert d == ['3'];
    DigitsValueSingle('3');
    DecimalValueWhole(d);
  }

  /** `2.1k` reads as 2100. */
  lemma ExampleTwoPointOneK(s: string)
    requires s == "2.1k"
    ensures ParseStarCount(Some(s)) == Some(2100.0)
  {
    var d, f, k := "2", "1", 'k';
    assert d == ['2'] && f == ['1'];
    DigitsValueSingle('2');
    DigitsValueSingle('1');
    DecimalValueTenths(d, f);
    assert s == DecimalText(d, f) + [k];
    ParseStarCountSuffix(d, f, k);
  }

  /** `3` reads as 3. */
  lemma ExampleThree(s: string)
    requires s == "3"
    ensures ParseStarCount(Some(s)) == Some(3.0)
  {
    ThreeWhole("3", "");
    ParseStarCountPlain("3", "");
  }

  /** A text with no number in it counts as zero. */
  lemma ExampleGarbage(s: string)
    requires s == "garbage"
    ensures ParseStarCount(Some(s)) == Some(0.0)
  {
    NormalizeLetters(s);
    assert ',' !in s;
    assert RemoveFirst(s, ',') == s;
    assert ParseFloat(s) == None by {
      assert SpaceEnd(s, 0) == 0 && DigitsEnd(s, 0) == 0;
    }
    PlainBranch(s, None);
  }

  /** `1,234,567` reads as 1234. */
  lemma ExampleTwoCommas(s: string)
    requires s == "1,234,567"
    ensures ParseStarCount(Some(s)) == Some(1234.0)
  {
    var a, b, c := "1", "234", "567";
    assert a + [','] + b == "1,234";
    assert s == "1,234" + [','] + c;
    DigitsOf1234(a + b);
    ParseStarCountSecondCommaStops(a, b, c);
  }

  lemma DigitsOf1234(d: string)
    requires d == "1234"
    ensures AllDigits(d) && DigitsValue(d) == 1234
  {
    DigitsValueOfNatToString(1234);
    assert NatToString(1) == "1";
    assert NatToString(12) == "12";
    assert NatToString(123) == "123";
    assert NatToString(1234) == "1234";
  }

  /** A word of lower-case letters is its own normal form. */
  lemma NormalizeLetters(w: string)
    requires w != [] && forall k | 0 <= k < |w| :: 'a' <= w[k] <= 'z'
    ensures Normalize(w) == w
  {
    TrimOfTrimmed(w);
    LowerOfLowerCase(w);
  }
}
