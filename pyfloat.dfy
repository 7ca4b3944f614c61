/**
 * Python's `float(s)` on a string, as a partial parser over the decimal
 * grammar  [+-]? ( digits ( '.' digits? )? | '.' digits ),  surrounded by
 * optional whitespace. A string outside the grammar is the ValueError
 * that `float` raises, here `None`.
 */
module PyFloat {
  import opened Common
  import opened Text

  function DigitValue(c: char): (d: nat)
    requires IsDigit(c)
    ensures d <= 9
  {
    (c as int) - ('0' as int)
  }

  /** The natural number a string of decimal digits spells. */
  function DigitsValue(s: string): nat
    requires AllDigits(s)
  {
    if s == [] then 0 else DigitsValue(s[..|s| - 1]) * 10 + DigitValue(s[|s| - 1])
  }

  function Pow10(n: nat): (r: nat)
    ensures r >= 1
  {
    if n == 0 then 1 else 10 * Pow10(n - 1)
  }

  /** The value of the digits after a decimal point: "25" is 0.25. */
  function FractionValue(s: string): real
    requires AllDigits(s)
  {
    DigitsValue(s) as real / Pow10(|s|) as real
  }

  /** The value of a digit run followed by a fraction, as in `12.5`. */
  function Magnitude(whole: string, fraction: string): real
    requires AllDigits(whole) && AllDigits(fraction)
  {
    DigitsValue(whole) as real + FractionValue(fraction)
  }

  /** Length of the run of digits at the start of s. */
  function DigitRun(s: string): (k: nat)
    ensures k <= |s| && AllDigits(s[..k])
    ensures k < |s| ==> !IsDigit(s[k])
  {
    if s == [] || !IsDigit(s[0]) then 0
    else
      var k := 1 + DigitRun(s[1..]);
      assert s[..k] == [s[0]] + s[1..][..k - 1];
      k
  }

  function ParseUnsigned(s: string): Option<real> {
    var k := DigitRun(s);
    var rest := s[k..];
    if rest == [] then
      if k > 0 then Some(DigitsValue(s[..k]) as real) else None
    else if rest[0] == '.' && AllDigits(rest[1..]) && (k > 0 || |rest| > 1) then
      Some(Magnitude(s[..k], rest[1..]))
    else None
  }

  /** The grammar without the surrounding whitespace. */
  function ParseLiteral(s: string): Option<real> {
    if |s| > 0 && (s[0] == '+' || s[0] == '-') then
      match ParseUnsigned(s[1..])
      case None => None
      case Some(v) => Some(if s[0] == '-' then -v else v)
    else ParseUnsigned(s)
  }

  /** `float(s)` for a str s. */
  function ParseFloat(s: string): Option<real> {
    ParseLiteral(Strip(s))
  }

  // ---------------------------------------------------------------------
  // The grammar as data: a literal is spelled and valued independently of
  // the parser, and the parser accepts exactly the spellings.
  // ---------------------------------------------------------------------

  datatype Sign = NoSign | Plus | Minus

  datatype Literal = Literal(sign: Sign, whole: string, point: bool, fraction: string)

  predicate WellFormed(l: Literal) {
    && AllDigits(l.whole)
    && AllDigits(l.fraction)
    && (!l.point ==> l.fraction == [])
    && (|l.whole| > 0 || |l.fraction| > 0)
  }

  function SignText(s: Sign): string {
    match s
    case NoSign => ""
    case Plus => "+"
    case Minus => "-"
  }

  function Spell(l: Literal): string {
    SignText(l.sign) + Unsigned(l)
  }

  /** The spelling without the sign. */
  function Unsigned(l: Literal): string {
    l.whole + (if l.point then "." else "") + l.fraction
  }

  function Value(l: Literal): real
    requires WellFormed(l)
  {
    var magnitude := Magnitude(l.whole, l.fraction);
    if l.sign == Minus then -magnitude else magnitude
  }

  lemma {:induction false} DigitRunAppend(w: string, r: string)
    requires AllDigits(w)
    requires r == [] || !IsDigit(r[0])
    ensures DigitRun(w + r) == |w|
  {
    if w != [] {
      assert (w + r)[1..] == w[1..] + r;
      DigitRunAppend(w[1..], r);
    }
  }

  lemma PointParses(w: string, f: string)
    requires AllDigits(w) && AllDigits(f) && (|w| > 0 || |f| > 0)
    ensures ParseUnsigned(w + "." + f) == Some(Magnitude(w, f))
  {
    var tail := ['.'] + f;
    var s := w + tail;
    assert w + "." + f == s;
    DigitRunAppend(w, tail);
    var k := DigitRun(s);
    assert s[..k] == w;
    var rest := s[k..];
    assert rest == tail;
    assert rest[0] == '.' && rest[1..] == f;
    assert rest != [] && AllDigits(rest[1..]) && (k > 0 || |rest| > 1);
    assert ParseUnsigned(s) == Some(Magnitude(s[..k], rest[1..]));
  }

  lemma WholeParses(w: string)
    requires AllDigits(w) && |w| > 0
    ensures ParseUnsigned(w) == Some(DigitsValue(w) as real)
  {
    DigitRunAppend(w, []);
    assert w + [] == w;
    assert w[..|w|] == w;
  }

  lemma UnsignedParses(l: Literal)
    requires WellFormed(l)
    ensures ParseUnsigned(Unsigned(l)) == Some(Magnitude(l.whole, l.fraction))
  {
    if l.point {
      PointParses(l.whole, l.fraction);
    } else {
      assert Unsigned(l) == l.whole;
      WholeParses(l.whole);
      assert FractionValue(l.fraction) == 0.0;
    }
  }

  /** Every well-formed literal parses to its value. */
  lemma SpellParses(l: Literal)
    requires WellFormed(l)
    ensures ParseLiteral(Spell(l)) == Some(Value(l))
  {
    UnsignedParses(l);
    if l.sign == NoSign {
      UnsignedStartsPlain(l);
      assert Spell(l) == Unsigned(l);
    } else {
      SignedSpelling(l);
    }
  }

  /** An unsigned spelling starts with a digit or the point, not with a sign. */
  lemma UnsignedStartsPlain(l: Literal)
    requires WellFormed(l)
    ensures |Unsigned(l)| > 0 && Unsigned(l)[0] != '+' && Unsigned(l)[0] != '-'
  {
    var body := Unsigned(l);
    if |l.whole| > 0 {
      assert body[0] == l.whole[0];
    } else {
      assert body[0] == '.';
    }
  }

  /** A signed spelling is its sign character followed by the unsigned spelling. */
  lemma SignedSpelling(l: Literal)
    requires WellFormed(l) && l.sign != NoSign
    requires ParseUnsigned(Unsigned(l)) == Some(Magnitude(l.whole, l.fraction))
    ensures ParseLiteral(Spell(l)) == Some(Value(l))
  {
    var s := Spell(l);
    assert s == SignText(l.sign) + Unsigned(l);
    assert |s| > 0 && s[1..] == Unsigned(l);
    assert s[0] == if l.sign == Minus then '-' else '+';
  }

  lemma UnsignedIsLiteral(s: string, v: real)
    requires ParseUnsigned(s) == Some(v)
    ensures var l := UnsignedLiteral(s); WellFormed(l) && Unsigned(l) == s && l.sign == NoSign
    ensures var l := UnsignedLiteral(s); Magnitude(l.whole, l.fraction) == v
  {
    var k := DigitRun(s);
    var l := UnsignedLiteral(s);
    if k < |s| {
      assert s[k] == '.';
      assert s == s[..k] + "." + s[k + 1..];
      assert s[k..][1..] == s[k + 1..];
    } else {
      assert s[..k] == s;
      assert FractionValue("") == 0.0;
    }
  }

  function UnsignedLiteral(s: string): Literal {
    var k := DigitRun(s);
    if k < |s| then Literal(NoSign, s[..k], true, s[k + 1..]) else Literal(NoSign, s, false, "")
  }

  /** The literal of a signed string whose unsigned part is m. */
  lemma SignedLiteral(sign: Sign, m: Literal, l: Literal)
    requires WellFormed(m) && m.sign == NoSign
    requires l == Literal(sign, m.whole, m.point, m.fraction)
    ensures WellFormed(l) && Spell(l) == SignText(sign) + Unsigned(m)
    ensures Value(l) == if sign == Minus then -Value(m) else Value(m)
  {
  }

  lemma SignedIsLiteral(s: string, v: real) returns (l: Literal)
    requires |s| > 0 && (s[0] == '+' || s[0] == '-')
    requires ParseUnsigned(s[1..]).Some?
    requires v == if s[0] == '-' then -ParseUnsigned(s[1..]).value else ParseUnsigned(s[1..]).value
    ensures WellFormed(l) && Spell(l) == s && Value(l) == v
  {
    var tail := s[1..];
    var u := ParseUnsigned(tail).value;
    var sign := if s[0] == '-' then Minus else Plus;
    UnsignedIsLiteral(tail, u);
    var m := UnsignedLiteral(tail);
    l := Literal(sign, m.whole, m.point, m.fraction);
    SignedLiteral(sign, m, l);
    assert SignText(sign) == [s[0]];
    assert s == [s[0]] + tail;
  }

  /** The parser accepts nothing but spellings of literals, and values them as spelled. */
  lemma ParsedIsLiteral(s: string, v: real) returns (l: Literal)
    requires ParseLiteral(s) == Some(v)
    ensures WellFormed(l) && Spell(l) == s && Value(l) == v
  {
    if |s| > 0 && (s[0] == '+' || s[0] == '-') {
      l := SignedIsLiteral(s, v);
    } else {
      UnsignedIsLiteral(s, v);
      l := UnsignedLiteral(s);
    }
  }

  // ---------------------------------------------------------------------
  // NaN: `float()` also accepts `nan`, whatever its case, after an
  // optional sign. The infinity spellings are not modelled.
  // ---------------------------------------------------------------------

  predicate NanSpelling(s: string) {
    var t := Strip(s);
    var u := if |t| > 0 && (t[0] == '+' || t[0] == '-') then t[1..] else t;
    Upper(u) == "NAN"
  }

  /** A NaN spelling is no decimal literal. */
  lemma NanNotParsed(s: string)
    requires NanSpelling(s)
    ensures ParseFloat(s).None?
  {
    var t := Strip(s);
    var u := if |t| > 0 && (t[0] == '+' || t[0] == '-') then t[1..] else t;
    assert UpperChar(u[0]) == Upper(u)[0] == 'N';
    assert DigitRun(u) == 0;
  }

  /** `str(nan)` is `nan`, which reads back as NaN. */
  lemma NanTextIsNan()
    ensures NanSpelling("nan")
  {
    var s := "nan";
    assert s[0] == 'n' && s[1] == 'a' && s[2] == 'n';
    StripTrimmed(s);
    var u := Upper(s);
    assert u[0] == 'N' && u[1] == 'A' && u[2] == 'N';
    assert u == "NAN";
  }
}
