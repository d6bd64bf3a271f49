/** JavaScript's `parseFloat` and `parseInt(·, 10)` over exact rationals.

    Both skip leading whitespace and then read the longest prefix that forms a number;
    when no such prefix exists the JavaScript result is `NaN`, modelled here as `None`.
    Floating-point rounding is not modelled: a literal denotes its exact decimal value. */
module JsNumbers {
  import opened Wrappers
  import opened JsText

  /** The pieces of a decimal literal `[sign] digits [. digits] [e [sign] digits]` found at
      the start of a string, and the index just past it. */
  datatype Literal = Literal(
    negative: bool,
    intDigits: string,
    fracDigits: string,
    expNegative: bool,
    expDigits: string,
    end: nat)
  {
    ghost predicate WellFormed() {
      && AllDigits(intDigits) && AllDigits(fracDigits) && AllDigits(expDigits)
      && |intDigits| + |fracDigits| > 0
    }
  }

  predicate IsSign(c: char) {
    c == '+' || c == '-'
  }

  predicate IsExponentMark(c: char) {
    c == 'e' || c == 'E'
  }

  /** Reads an optional sign at `i`: whether it is a minus, and where the digits start. */
  function SignAt(s: string, i: nat): (r: (bool, nat))
    requires i <= |s|
    ensures r.1 == (if i < |s| && IsSign(s[i]) then i + 1 else i)
    ensures r.0 <==> (i < |s| && s[i] == '-')
  {
    if i < |s| && IsSign(s[i]) then (s[i] == '-', i + 1) else (false, i)
  }

  /** The longest decimal-literal prefix of `s` after its leading whitespace: the
      `StrDecimalLiteral` of `parseFloat`, without the `Infinity` alternative. */
  function ScanLiteral(s: string): (r: Option<Literal>)
    ensures r.Some? ==> r.value.WellFormed() && r.value.end <= |s|
  {
    var (neg, a) := SignAt(s, SpaceEnd(s, 0));
    var b := DigitsEnd(s, a);
    var dot := b < |s| && s[b] == '.';
    var f := if dot then b + 1 else b;
    var c := DigitsEnd(s, f);
    if b == a && c == f then None
    else if c < |s| && IsExponentMark(s[c]) then
      var (eneg, q) := SignAt(s, c + 1);
      var e := DigitsEnd(s, q);
      if e > q then Some(Literal(neg, s[a..b], s[f..c], eneg, s[q..e], e))
      else Some(Literal(neg, s[a..b], s[f..c], false, "", c))
    else Some(Literal(neg, s[a..b], s[f..c], false, "", c))
  }

  /** The exact value a well-formed literal denotes. */
  function LiteralValue(l: Literal): real
    requires l.WellFormed()
  {
    var mantissa := DigitsValue(l.intDigits) as real
      + DigitsValue(l.fracDigits) as real / Pow10(|l.fracDigits|) as real;
    var scale := Pow10(DigitsValue(l.expDigits)) as real;
    var magnitude := if l.expNegative then mantissa / scale else mantissa * scale;
    if l.negative then -magnitude else magnitude
  }

  /** `parseFloat(s)`; `None` is `NaN`. */
  function ParseFloat(s: string): (r: Option<real>)
    ensures r.None? <==> ScanLiteral(s).None?
  {
    match ScanLiteral(s)
    case None => None
    case Some(l) => Some(LiteralValue(l))
  }

  /** `parseFloat` is `NaN` exactly when, after the whitespace and an optional sign,
      there is neither a digit nor a point followed by a digit. */
  lemma ParseFloatNaN(s: string)
    ensures ParseFloat(s).None? <==>
      (var a := SignAt(s, SpaceEnd(s, 0)).1;
       && (a == |s| || !IsDigit(s[a]))
       && !(a + 1 < |s| && s[a] == '.' && IsDigit(s[a + 1])))
  {
    var a := SignAt(s, SpaceEnd(s, 0)).1;
    var b := DigitsEnd(s, a);
    DigitsEndEmpty(s, a);
    var f := if b < |s| && s[b] == '.' then b + 1 else b;
    DigitsEndEmpty(s, f);
    assert ScanLiteral(s).None? <==> b == a && DigitsEnd(s, f) == f;
  }

  /** A digit run is empty exactly when no digit stands at its start. */
  lemma DigitsEndEmpty(s: string, i: nat)
    requires i <= |s|
    ensures DigitsEnd(s, i) == i <==> (i == |s| || !IsDigit(s[i]))
  {
    if DigitsEnd(s, i) > i {
      assert IsDigit(s[i]);
    }
  }

  /** `parseInt(s, 10)`: an optional sign and the longest run of decimal digits after
      the leading whitespace; `None` is `NaN`. */
  function ParseInt(s: string): (r: Option<int>)
  {
    var (neg, a) := SignAt(s, SpaceEnd(s, 0));
    var b := DigitsEnd(s, a);
    if a == b then None
    else
      var v: int := DigitsValue(s[a..b]);
      Some(if neg then -v else v)
  }

  /** `parseInt` fails exactly when no digit follows the whitespace and the optional sign. */
  lemma ParseIntFailsWithoutDigits(s: string)
    ensures ParseInt(s).None? <==>
      (var a := SignAt(s, SpaceEnd(s, 0)).1; a == |s| || !IsDigit(s[a]))
  {
  }

  /** A plain decimal number: the digits `d`, optionally followed by a fraction `.f`. */
  function DecimalText(d: string, f: string): string
  {
    d + (if f == [] then [] else ['.'] + f)
  }

  /** The exact value of `DecimalText(d, f)`. */
  function DecimalValue(d: string, f: string): real
    requires AllDigits(d) && AllDigits(f)
  {
    DigitsValue(d) as real + DigitsValue(f) as real / Pow10(|f|) as real
  }

  /** A number without fraction denotes its digits. */
  lemma DecimalValueWhole(d: string)
    requires AllDigits(d)
    ensures DecimalValue(d, []) == DigitsValue(d) as real
  {
    assert DigitsValue([]) == 0;
    assert Pow10(0) == 1;
  }

  /** A character that cannot continue a decimal literal. */
  predicate StopsLiteral(c: char) {
    !IsDigit(c) && c != '.' && !IsExponentMark(c)
  }

  /** What the scanner finds in a plain decimal number followed by a character that
      cannot extend it. */
  lemma ScanDecimal(d: string, f: string, rest: string)
    requires d != [] && AllDigits(d) && AllDigits(f)
    requires rest == [] || StopsLiteral(rest[0])
    requires f == [] ==> rest == [] || rest[0] != '.'
    ensures ScanLiteral(DecimalText(d, f) + rest)
         == Some(Literal(false, d, f, false, "", |DecimalText(d, f)|))
  {
    if f == [] {
      assert DecimalText(d, f) + rest == d + rest;
      ScanWhole(d, rest);
    } else {
      assert DecimalText(d, f) + rest == d + ['.'] + f + rest;
      assert |DecimalText(d, f)| == |d| + 1 + |f|;
      ScanFraction(d, f, rest);
    }
  }

  /** The digits `d` at the start of `s`, as a maximal run. */
  lemma LeadingDigits(s: string, d: string)
    requires d != [] && AllDigits(d) && |d| <= |s| && s[..|d|] == d
    requires |d| == |s| || !IsDigit(s[|d|])
    ensures SpaceEnd(s, 0) == 0 && SignAt(s, 0) == (false, 0) && DigitsEnd(s, 0) == |d|
  {
    assert s[0] == d[0] && IsDigit(d[0]);
    assert forall k | 0 <= k < |d| :: s[k] == d[k];
    DigitsEndAt(s, 0, |d|);
  }

  /** The scanner on a digit run followed by what cannot extend it. */
  lemma ScanWhole(d: string, rest: string)
    requires d != [] && AllDigits(d)
    requires rest == [] || (StopsLiteral(rest[0]) && rest[0] != '.')
    ensures ScanLiteral(d + rest) == Some(Literal(false, d, "", false, "", |d|))
  {
    var s := d + rest;
    assert s[..|d|] == d;
    assert |d| == |s| || s[|d|] == rest[0];
    LeadingDigits(s, d);
    DigitsEndAt(s, |d|, |d|);
    assert s[|d|..|d|] == [];
  }

  /** The scanner on digits, a point and digits, followed by what cannot extend them. */
  lemma ScanFraction(d: string, f: string, rest: string)
    requires d != [] && AllDigits(d) && AllDigits(f) && f != []
    requires rest == [] || StopsLiteral(rest[0])
    ensures ScanLiteral(d + ['.'] + f + rest) == Some(Literal(false, d, f, false, "", |d| + 1 + |f|))
  {
    var s := d + ['.'] + f + rest;
    assert s[..|d|] == d;
    assert s[|d|] == '.';
    LeadingDigits(s, d);
    var c := |d| + 1 + |f|;
    assert forall k | |d| + 1 <= k < c :: s[k] == f[k - |d| - 1];
    assert c == |s| || s[c] == rest[0];
    DigitsEndAt(s, |d| + 1, c);
    assert s[|d| + 1..c] == f;
  }

  /** `parseFloat` reads back the value of a plain decimal number, whatever follows it,
      as long as what follows cannot extend the literal. */
  lemma ParseFloatDecimal(d: string, f: string, rest: string)
    requires d != [] && AllDigits(d) && AllDigits(f)
    requires rest == [] || StopsLiteral(rest[0])
    requires f == [] ==> rest == [] || rest[0] != '.'
    ensures ParseFloat(DecimalText(d, f) + rest) == Some(DecimalValue(d, f))
  {
    var s := DecimalText(d, f) + rest;
    var l := Literal(false, d, f, false, "", |DecimalText(d, f)|);
    ScanDecimal(d, f, rest);
    DecimalLiteralValue(d, f);
    ParseFloatOfScan(s, l, DecimalValue(d, f));
  }

  /** The literal of a plain decimal number denotes that number. */
  lemma DecimalLiteralValue(d: string, f: string)
    requires d != [] && AllDigits(d) && AllDigits(f)
    ensures var l := Literal(false, d, f, false, "", |DecimalText(d, f)|);
      l.WellFormed() && LiteralValue(l) == DecimalValue(d, f)
  {
    var l := Literal(false, d, f, false, "", |DecimalText(d, f)|);
    assert DigitsValue(l.expDigits) == 0;
    assert Pow10(0) == 1;
  }

  /** `parseFloat` yields the value of the literal the scanner found. */
  lemma ParseFloatOfScan(s: string, l: Literal, x: real)
    requires ScanLiteral(s) == Some(l)
    requires l.WellFormed() && LiteralValue(l) == x
    ensures ParseFloat(s) == Some(x)
  {
  }

  /** `parseInt` reads back a run of digits, and ignores a fractional part after it. */
  lemma {:induction false} ParseIntDecimal(d: string, f: string)
    requires d != [] && AllDigits(d) && AllDigits(f)
    ensures ParseInt(DecimalText(d, f)) == Some(DigitsValue(d))
  {
    var s := DecimalText(d, f);
    assert s[0] == d[0];
    assert s[..|d|] == d;
    assert forall k | 0 <= k < |d| :: s[k] == d[k];
    assert |d| == |s| || s[|d|] == '.';
    DigitsEndAt(s, 0, |d|);
  }

  /** `parseInt` reads a leading minus sign. */
  lemma {:induction false} ParseIntNegative(n: nat)
    ensures ParseInt("-" + NatToString(n)) == Some(-(n as int))
  {
    var d := NatToString(n);
    var s := "-" + d;
    DigitsValueOfNatToString(n);
    assert s[1..] == d;
    assert SpaceEnd(s, 0) == 0;
    assert SignAt(s, 0) == (true, 1);
    assert forall k | 1 <= k < |s| :: s[k] == d[k - 1];
    DigitsEndAt(s, 1, |s|);
    assert s[1..|s|] == d;
  }
}
