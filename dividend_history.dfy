/**
 * The dividend audit of update_dividend_history.py: locale-ambiguous number
 * cleaning, the position held on a date (ledger replay), the BRAPI feed with
 * same-day events summed, the Yahoo fallback with its symbol rule, and the
 * attribution of every event to the quantity held on its entitlement date.
 *
 * Provider calls are parameters: `brapi` maps a cleaned ticker to what the
 * BRAPI request produced, `yahoo` maps a Yahoo symbol to its dividend series
 * (empty when the series is empty or the call raised). Dates are day numbers.
 */
module DividendHistory {
  import opened Common
  import opened Text
  import opened PyFloat

  // ---------------------------------------------------------------------
  // clean_float
  // ---------------------------------------------------------------------

  /** A spreadsheet cell as gspread returns it: a Python number or a str. */
  datatype Cell = Number(value: real) | Str(text: string)

  /** The string clean_float hands to float(): quotes removed, stripped, separators resolved. */
  function CleanText(s: string): string {
    var clean := Strip(RemoveAll(s, '"'));
    if ',' in clean && '.' in clean then ReplaceAll(RemoveAll(clean, '.'), ',', '.')
    else if ',' in clean then ReplaceAll(clean, ',', '.')
    else clean
  }

  /** clean_float: numbers pass through, text is cleaned and parsed, and a failed parse is 0.0. */
  function CleanFloat(v: Cell): (r: real)
    ensures v.Number? ==> r == v.value
    ensures v.Str? && ParseFloat(CleanText(v.text)).None? ==> r == 0.0
  {
    match v
    case Number(x) => x
    case Str(s) =>
      match ParseFloat(CleanText(s))
      case Some(x) => x
      case None => 0.0
  }

  /** A string made of digits and dots only: a whole part written with thousands separators. */
  predicate DottedDigits(t: string) {
    forall i :: 0 <= i < |t| ==> IsDigit(t[i]) || t[i] == '.'
  }

  lemma {:induction false} DottedDigitsRemoveDots(t: string)
    requires DottedDigits(t)
    ensures AllDigits(RemoveAll(t, '.'))
    ensures ',' !in t && '"' !in t
  {
    if t != [] {
      var init := t[..|t| - 1];
      assert DottedDigits(init);
      DottedDigitsRemoveDots(init);
    }
  }

  lemma LiteralEnds(l: Literal)
    requires WellFormed(l)
    ensures |Spell(l)| > 0 && !IsSpace(Spell(l)[0]) && !IsSpace(Spell(l)[|Spell(l)| - 1])
    ensures ',' !in Spell(l) && '"' !in Spell(l)
  {
    var s := Spell(l);
    assert s == SignText(l.sign) + l.whole + (if l.point then "." else "") + l.fraction;
  }

  /** `float()` on a spelled literal, which it strips first. */
  lemma FloatOfSpelling(l: Literal)
    requires WellFormed(l)
    ensures ParseFloat(Spell(l)) == Some(Value(l))
  {
    LiteralEnds(l);
    StripTrimmed(Spell(l));
    SpellParses(l);
  }

  /** Text without quotes or surrounding whitespace reaches the separator rules unchanged. */
  lemma CleanInput(s: string)
    requires '"' !in s && |s| > 0 && !IsSpace(s[0]) && !IsSpace(s[|s| - 1])
    ensures Strip(RemoveAll(s, '"')) == s
  {
    RemoveAllAbsent(s, '"');
    StripTrimmed(s);
  }

  lemma SignTextPlain(sign: Sign)
    ensures '.' !in SignText(sign) && ',' !in SignText(sign) && '"' !in SignText(sign)
  {
  }

  lemma CommaThenDigits(fraction: string)
    requires AllDigits(fraction)
    ensures '.' !in "," + fraction
  {
    assert forall i :: 0 <= i < |fraction| ==> ("," + fraction)[i + 1] == fraction[i];
  }

  lemma DropThousandsDots(sign: Sign, grouped: string, fraction: string)
    requires AllDigits(fraction)
    ensures RemoveAll(SignText(sign) + grouped + "," + fraction, '.') == SignText(sign) + RemoveAll(grouped, '.') + "," + fraction
  {
    var p := SignText(sign);
    var tail := "," + fraction;
    assert p + grouped + "," + fraction == (p + grouped) + tail;
    RemoveAllAppend(p + grouped, tail, '.');
    RemoveAllAppend(p, grouped, '.');
    SignTextPlain(sign);
    RemoveAllAbsent(p, '.');
    CommaThenDigits(fraction);
    RemoveAllAbsent(tail, '.');
    assert RemoveAll(p + grouped + "," + fraction, '.') == p + RemoveAll(grouped, '.') + tail;
  }

  lemma CommaToPoint(sign: Sign, whole: string, fraction: string)
    requires AllDigits(whole) && AllDigits(fraction)
    ensures ReplaceAll(SignText(sign) + whole + "," + fraction, ',', '.') == Spell(Literal(sign, whole, true, fraction))
  {
    var t := SignText(sign) + whole + "," + fraction;
    var r := ReplaceAll(t, ',', '.');
    var spelled := Spell(Literal(sign, whole, true, fraction));
    assert spelled == SignText(sign) + whole + "." + fraction;
    assert |r| == |spelled|;
    forall i | 0 <= i < |r| ensures r[i] == spelled[i] {
      var n := |SignText(sign) + whole|;
      if i < |SignText(sign)| {
        assert t[i] == SignText(sign)[i] && spelled[i] == SignText(sign)[i];
      } else if i < n {
        assert t[i] == whole[i - |SignText(sign)|] && spelled[i] == whole[i - |SignText(sign)|];
      } else if i == n {
        assert t[i] == ',' && spelled[i] == '.';
      } else {
        assert t[i] == fraction[i - n - 1] && spelled[i] == fraction[i - n - 1];
      }
    }
  }

  /**
   * Comma as the decimal separator: a sign, a whole part in which dots
   * separate thousands (there may be none), a comma and the decimals parse
   * to the value of the literal with the dots dropped and a decimal point
   * in place of the comma. "1.957,00" is 1957.0 and "580,00" is 580.0.
   */
  lemma CommaIsDecimalSeparator(sign: Sign, grouped: string, fraction: string)
    requires DottedDigits(grouped) && AllDigits(fraction)
    requires |RemoveAll(grouped, '.')| > 0 || |fraction| > 0
    ensures AllDigits(RemoveAll(grouped, '.'))
    ensures var l := Literal(sign, RemoveAll(grouped, '.'), true, fraction);
            WellFormed(l) && CleanFloat(Str(SignText(sign) + grouped + "," + fraction)) == Value(l)
  {
    DottedDigitsRemoveDots(grouped);
    var l := Literal(sign, RemoveAll(grouped, '.'), true, fraction);
    CommaSpelling(sign, grouped, fraction);
    FloatOfSpelling(l);
  }

  /** The cleaned text of a comma-separated number is the spelling of its literal. */
  lemma CommaSpelling(sign: Sign, grouped: string, fraction: string)
    requires DottedDigits(grouped) && AllDigits(fraction)
    ensures AllDigits(RemoveAll(grouped, '.'))
    ensures CleanText(SignText(sign) + grouped + "," + fraction) == Spell(Literal(sign, RemoveAll(grouped, '.'), true, fraction))
  {
    DottedDigitsRemoveDots(grouped);
    var whole := RemoveAll(grouped, '.');
    var s := SignText(sign) + grouped + "," + fraction;
    assert s[|SignText(sign) + grouped|] == ',';
    assert s[|s| - 1] == if fraction == [] then ',' else fraction[|fraction| - 1];
    assert s[0] == if sign != NoSign then SignText(sign)[0] else if grouped != [] then grouped[0] else ',';
    assert '"' !in s;
    CleanInput(s);
    CommaCleanText(s);
    DropThousandsDots(sign, grouped, fraction);
    CommaToPoint(sign, whole, fraction);
  }

  /** With a comma present, the points are dropped (if any) and the comma becomes the point. */
  lemma CommaCleanText(s: string)
    requires Strip(RemoveAll(s, '"')) == s && ',' in s
    ensures CleanText(s) == ReplaceAll(RemoveAll(s, '.'), ',', '.')
  {
    if '.' !in s {
      RemoveAllAbsent(s, '.');
    }
  }

  /** With no comma, a point is the decimal separator and the text is parsed as written: "1.957" is 1.957. */
  lemma PointIsDecimalSeparator(l: Literal)
    requires WellFormed(l)
    ensures CleanFloat(Str(Spell(l))) == Value(l)
  {
    var s := Spell(l);
    LiteralEnds(l);
    CleanInput(s);
    assert CleanText(s) == s;
    FloatOfSpelling(l);
  }

  /** Double quotes anywhere are ignored: a quoted cell cleans like the bare text. */
  lemma QuotesIgnored(s: string)
    ensures CleanFloat(Str("\"" + s + "\"")) == CleanFloat(Str(RemoveAll(s, '"')))
  {
    RemoveAllAppend("\"" + s, "\"", '"');
    RemoveAllAppend("\"", s, '"');
    assert RemoveAll("\"", '"') == "" by {
      assert "\""[..0] == "";
    }
    var t := RemoveAll(s, '"');
    RemoveAllAbsent(t, '"');
    assert RemoveAll("\"" + s + "\"", '"') == RemoveAll(t, '"');
  }

  lemma ThousandsDotDropped()
    ensures RemoveAll("1.957", '.') == "1957"
  {
    assert "1.957" == "1" + ['.'] + "957";
    RemoveBetween("1", "957", '.');
    assert "1" + "957" == "1957";
  }

  lemma BrazilianValue()
    ensures Value(Literal(NoSign, "1957", true, "00")) == 1957.0
  {
    assert DigitsValue("1957") == 1957 by {
      assert "1957"[..3] == "195";
      assert "195"[..2] == "19";
      assert "19"[..1] == "1";
      assert "1"[..0] == "";
    }
    assert FractionValue("00") == 0.0 by {
      assert "00"[..1] == "0";
      assert "0"[..0] == "";
    }
  }

  lemma PointValue()
    ensures Value(Literal(NoSign, "1", true, "957")) == 1.957
  {
    assert DigitsValue("1") == 1 by {
      assert "1"[..0] == "";
    }
    assert DigitsValue("957") == 957 by {
      assert "957"[..2] == "95";
      assert "95"[..1] == "9";
      assert "9"[..0] == "";
    }
    assert Pow10(3) == 1000;
  }

  lemma BrazilianSpelling()
    ensures CleanFloat(Str("" + "1.957" + "," + "00")) == Value(Literal(NoSign, RemoveAll("1.957", '.'), true, "00"))
  {
    assert DottedDigits("1.957") && AllDigits("00");
    CommaIsDecimalSeparator(NoSign, "1.957", "00");
  }

  lemma BrazilianText()
    ensures "" + "1.957" + "," + "00" == "1.957,00"
  {
  }

  lemma BrazilianParse()
    ensures CleanFloat(Str("1.957,00")) == Value(Literal(NoSign, "1957", true, "00"))
  {
    BrazilianSpelling();
    ThousandsDotDropped();
    BrazilianText();
  }

  /** With a comma after them the digits 1.957 mean one thousand nine hundred fifty-seven... */
  lemma BrazilianExample()
    ensures CleanFloat(Str("1.957,00")) == 1957.0
  {
    BrazilianParse();
    BrazilianValue();
  }

  lemma PointSpelling()
    ensures CleanFloat(Str(Spell(Literal(NoSign, "1", true, "957")))) == Value(Literal(NoSign, "1", true, "957"))
  {
    PointIsDecimalSeparator(Literal(NoSign, "1", true, "957"));
  }

  lemma PointText()
    ensures Spell(Literal(NoSign, "1", true, "957")) == "1.957"
  {
  }

  lemma PointParse()
    ensures CleanFloat(Str("1.957")) == Value(Literal(NoSign, "1", true, "957"))
  {
    PointSpelling();
    PointText();
  }

  /** ...and without one, not quite two. */
  lemma PointExample()
    ensures CleanFloat(Str("1.957")) == 1.957
  {
    PointParse();
    PointValue();
  }

  /** A parsed literal has a digit. */
  lemma ParsedHasDigit(s: string)
    ensures ParseLiteral(s).Some? ==> HasDigit(s)
  {
    if ParseLiteral(s).Some? {
      var l := ParsedIsLiteral(s, ParseLiteral(s).value);
      SpellHasDigit(l);
    }
  }

  lemma SpellHasDigit(l: Literal)
    requires WellFormed(l)
    ensures HasDigit(Spell(l))
  {
    var n := |SignText(l.sign)|;
    var u := Unsigned(l);
    assert Spell(l)[n..] == u;
    if |l.whole| > 0 {
      assert u[0] == l.whole[0];
      assert IsDigit(Spell(l)[n]);
    } else {
      assert u == "." + l.fraction;
      assert IsDigit(Spell(l)[n + 1]);
    }
  }

  /** Every character of t is one of s. */
  predicate CharsOf(t: string, s: string) {
    forall i :: 0 <= i < |t| ==> t[i] in s
  }

  lemma CharsOfChain(t: string, u: string, s: string)
    requires CharsOf(t, u) && CharsOf(u, s)
    ensures CharsOf(t, s)
  {
    forall i | 0 <= i < |t| ensures t[i] in s {
      var j :| 0 <= j < |u| && u[j] == t[i];
    }
  }

  /** Replacing commas by points leaves only points and characters of s. */
  lemma ReplacedFrom(u: string, s: string)
    requires CharsOf(u, s)
    ensures forall i :: 0 <= i < |ReplaceAll(u, ',', '.')| ==> ReplaceAll(u, ',', '.')[i] == '.' || ReplaceAll(u, ',', '.')[i] in s
  {
  }

  /** Every character of the cleaned text is a point or a character of the cell. */
  lemma CleanTextFrom(s: string)
    ensures forall i :: 0 <= i < |CleanText(s)| ==> CleanText(s)[i] == '.' || CleanText(s)[i] in s
  {
    var unquoted := RemoveAll(s, '"');
    var clean := Strip(unquoted);
    StripKeepsCharacters(unquoted);
    CharsOfChain(clean, unquoted, s);
    if ',' in clean && '.' in clean {
      var undotted := RemoveAll(clean, '.');
      CharsOfChain(undotted, clean, s);
      ReplacedFrom(undotted, s);
    } else if ',' in clean {
      ReplacedFrom(clean, s);
    }
  }

  /** Cleaning never introduces a digit. */
  lemma CleanTextDigits(s: string)
    ensures HasDigit(CleanText(s)) ==> HasDigit(s)
  {
    if HasDigit(CleanText(s)) {
      CleanTextFrom(s);
      var i :| 0 <= i < |CleanText(s)| && IsDigit(CleanText(s)[i]);
      var j :| 0 <= j < |s| && s[j] == CleanText(s)[i];
    }
  }

  /** A cell without a digit is worth zero: "-", "" and "N/A" among them. */
  lemma NoDigitIsZero(s: string)
    requires !HasDigit(s)
    ensures CleanFloat(Str(s)) == 0.0
  {
    CleanTextDigits(s);
    ParsedHasDigit(Strip(CleanText(s)));
    StripKeepsCharacters(CleanText(s));
  }

  // ---------------------------------------------------------------------
  // calcular_posicao_na_data: the position held at the end of a day
  // ---------------------------------------------------------------------

  /** A row of the transactions sheet; `date` is None where the date did not parse (NaT). */
  datatype Row = Row(ticker: string, date: Option<Day>, kind: string, quantity: Cell)

  datatype Effect = Increase | Decrease | Ignore

  const IncreasingKinds: set<string> := {"COMPRA", "BONIFICACAO", "DESDOBRAMENTO", "BUY", "ENTRADA"}
  const DecreasingKinds: set<string> := {"VENDA", "AGRUPAMENTO", "SELL", "SAIDA"}

  /** What a transaction type does to the position, read upper-cased. */
  function EffectOf(kind: string): Effect {
    var t := Upper(kind);
    if t in IncreasingKinds then Increase
    else if t in DecreasingKinds then Decrease
    else Ignore
  }

  /** The row mask: this ticker, dated on or before the cutoff (a NaT date never is). */
  predicate InScope(r: Row, ticker: string, cutoff: Day) {
    r.ticker == ticker && r.date.Some? && r.date.value <= cutoff
  }

  /** The signed change a row makes to the position. */
  function Delta(r: Row): real {
    match EffectOf(r.kind)
    case Increase => CleanFloat(r.quantity)
    case Decrease => -CleanFloat(r.quantity)
    case Ignore => 0.0
  }

  /** The running total `qtd` over the rows in scope, before it is floored. */
  function Net(rows: seq<Row>, ticker: string, cutoff: Day): real {
    if rows == [] then 0.0
    else
      var last := rows[|rows| - 1];
      Net(rows[..|rows| - 1], ticker, cutoff) + (if InScope(last, ticker, cutoff) then Delta(last) else 0.0)
  }

  /** The position on the cutoff day: the net quantity floored at zero. */
  function Position(rows: seq<Row>, ticker: string, cutoff: Day): real {
    Max0(Net(rows, ticker, cutoff))
  }

  /** calcular_posicao_na_data */
  method PositionAsOf(rows: seq<Row>, ticker: string, cutoff: Day) returns (qty: real)
    ensures qty == Position(rows, ticker, cutoff)
    ensures qty >= 0.0
  {
    var q := 0.0;
    var i := 0;
    while i < |rows|
      invariant 0 <= i <= |rows|
      invariant q == Net(rows[..i], ticker, cutoff)
    {
      var row := rows[i];
      assert rows[..i + 1][..i] == rows[..i];
      if InScope(row, ticker, cutoff) {
        var amount := CleanFloat(row.quantity);
        var t := Upper(row.kind);
        if t in IncreasingKinds {
          q := q + amount;
        } else if t in DecreasingKinds {
          q := q - amount;
        }
      }
      i := i + 1;
    }
    assert rows[..i] == rows;
    qty := if q > 0.0 then q else 0.0;
  }

  lemma {:induction false} NetAppend(a: seq<Row>, b: seq<Row>, ticker: string, cutoff: Day)
    ensures Net(a + b, ticker, cutoff) == Net(a, ticker, cutoff) + Net(b, ticker, cutoff)
    decreases |b|
  {
    if b == [] {
      assert a + b == a;
    } else {
      assert (a + b)[..|a + b| - 1] == a + b[..|b| - 1];
      NetAppend(a, b[..|b| - 1], ticker, cutoff);
    }
  }

  /**
   * A row of another ticker, dated after the cutoff or not dated, or of a
   * type that is neither increasing nor decreasing, changes no position,
   * wherever it stands in the ledger.
   */
  lemma IrrelevantRowIgnored(a: seq<Row>, x: Row, b: seq<Row>, ticker: string, cutoff: Day)
    requires !InScope(x, ticker, cutoff) || EffectOf(x.kind) == Ignore
    ensures Position(a + [x] + b, ticker, cutoff) == Position(a + b, ticker, cutoff)
  {
    NetAppend(a + [x], b, ticker, cutoff);
    NetAppend(a, [x], ticker, cutoff);
    NetAppend(a, b, ticker, cutoff);
    assert Net([x], ticker, cutoff) == 0.0 by {
      assert [x][..0] == [];
    }
  }

  /** The rows the mask keeps. */
  function InScopeRows(rows: seq<Row>, ticker: string, cutoff: Day): (r: seq<Row>)
    ensures forall i :: 0 <= i < |r| ==> InScope(r[i], ticker, cutoff) && r[i] in rows
  {
    if rows == [] then []
    else
      var kept := InScopeRows(rows[..|rows| - 1], ticker, cutoff);
      var last := rows[|rows| - 1];
      if InScope(last, ticker, cutoff) then kept + [last] else kept
  }

  /** The position depends on the rows in scope only. */
  lemma {:induction false} PositionOfScope(rows: seq<Row>, ticker: string, cutoff: Day)
    ensures Net(InScopeRows(rows, ticker, cutoff), ticker, cutoff) == Net(rows, ticker, cutoff)
    ensures Position(InScopeRows(rows, ticker, cutoff), ticker, cutoff) == Position(rows, ticker, cutoff)
  {
    if rows != [] {
      var init := rows[..|rows| - 1];
      var last := rows[|rows| - 1];
      PositionOfScope(init, ticker, cutoff);
      if InScope(last, ticker, cutoff) {
        var kept := InScopeRows(init, ticker, cutoff);
        NetAppend(kept, [last], ticker, cutoff);
        assert [last][..0] == [];
      }
    }
  }

  /** A ledger made only of increasing rows with non-negative quantities. */
  predicate OnlyIncreasing(rows: seq<Row>) {
    forall i :: 0 <= i < |rows| ==> EffectOf(rows[i].kind) == Increase && CleanFloat(rows[i].quantity) >= 0.0
  }

  /** On such a ledger the position needs no floor and never shrinks as the cutoff moves later. */
  lemma {:induction false} IncreasingLedgerMonotone(rows: seq<Row>, ticker: string, early: Day, late: Day)
    requires OnlyIncreasing(rows)
    requires early <= late
    ensures 0.0 <= Net(rows, ticker, early) <= Net(rows, ticker, late)
    ensures Position(rows, ticker, early) <= Position(rows, ticker, late)
  {
    if rows != [] {
      var init := rows[..|rows| - 1];
      assert OnlyIncreasing(init) by {
        forall i | 0 <= i < |init| ensures EffectOf(init[i].kind) == Increase && CleanFloat(init[i].quantity) >= 0.0 {
          assert init[i] == rows[i];
        }
      }
      IncreasingLedgerMonotone(init, ticker, early, late);
    }
  }

  /** The entitled and the disposed-before-the-record-date cases. */
  lemma PositionExamples()
    ensures Position([Row("PETR4", Some(18262), "COMPRA", Number(100.0))], "PETR4", 18413) == 100.0
    ensures Position([Row("PETR4", Some(18262), "compra", Number(100.0)),
                      Row("PETR4", Some(18383), "VENDA", Number(100.0))], "PETR4", 18413) == 0.0
  {
    var buy := Row("PETR4", Some(18262), "COMPRA", Number(100.0));
    assert Upper("COMPRA") == "COMPRA";
    assert [buy][..0] == [];
    var ledger := [Row("PETR4", Some(18262), "compra", Number(100.0)), Row("PETR4", Some(18383), "VENDA", Number(100.0))];
    assert Upper("compra") == "COMPRA";
    assert Upper("VENDA") == "VENDA";
    assert ledger[..1] == [ledger[0]];
    assert ledger[..1][..0] == [];
  }

  // ---------------------------------------------------------------------
  // get_dividends_brapi
  // ---------------------------------------------------------------------

  /** The `lastDatePrior` field of a BRAPI cash dividend: absent, not a date, or a date. */
  datatype PriorDate = Absent | Unparseable | Date(day: Day)

  /** One entry of `cashDividends`; `rate` is None when the key is missing. */
  datatype CashDividend = CashDividend(lastDatePrior: PriorDate, rate: Option<real>)

  /**
   * What the BRAPI request produced: NoReply stands for a missing token, a
   * status other than 200, no `results`, no `dividendsData`, and any exception
   * raised before the list of cash dividends is reached.
   */
  datatype BrapiReply = NoReply | Reply(cashDividends: seq<CashDividend>)

  /** An entry that makes the loop raise, which the function turns into None. */
  predicate Faulty(d: CashDividend) {
    d.lastDatePrior.Unparseable? || (d.lastDatePrior.Date? && d.rate.None?)
  }

  /** An entry that contributes `rate` to `day`. */
  predicate PaysOn(d: CashDividend, day: Day) {
    d.lastDatePrior == Date(day) && d.rate.Some?
  }

  /** The sum of the rates of the entries that fall on one day. */
  function DaySum(cash: seq<CashDividend>, day: Day): real {
    if cash == [] then 0.0
    else
      var last := cash[|cash| - 1];
      DaySum(cash[..|cash| - 1], day) + (if PaysOn(last, day) then last.rate.value else 0.0)
  }

  /** `div_dict` after the loop. */
  function DayTotals(cash: seq<CashDividend>): map<Day, real> {
    if cash == [] then map[]
    else
      var m := DayTotals(cash[..|cash| - 1]);
      var d := cash[|cash| - 1];
      if d.lastDatePrior.Date? && d.rate.Some? then
        var day := d.lastDatePrior.day;
        m[day := if day in m then m[day] + d.rate.value else d.rate.value]
      else m
  }

  /** The dictionary has one key per day that some entry falls on, holding that day's sum. */
  lemma {:induction false} DayTotalsSumSameDay(cash: seq<CashDividend>, day: Day)
    ensures day in DayTotals(cash) <==> exists i :: 0 <= i < |cash| && PaysOn(cash[i], day)
    ensures day in DayTotals(cash) ==> DayTotals(cash)[day] == DaySum(cash, day)
    ensures day !in DayTotals(cash) ==> DaySum(cash, day) == 0.0
  {
    if cash != [] {
      var init := cash[..|cash| - 1];
      DayTotalsSumSameDay(init, day);
      if exists i :: 0 <= i < |init| && PaysOn(init[i], day) {
        var i :| 0 <= i < |init| && PaysOn(init[i], day);
        assert cash[i] == init[i];
      }
      if exists i :: 0 <= i < |cash| && PaysOn(cash[i], day) {
        var i :| 0 <= i < |cash| && PaysOn(cash[i], day);
        if i < |init| {
          assert init[i] == cash[i];
        }
      }
    }
  }

  lemma NonEmpty(s: set<Day>)
    requires s != {}
    ensures exists x :: x in s
  {
    if forall x :: x !in s {
      assert false;
    }
  }

  /** A least day of a non-empty set of days. */
  lemma Minimum(s: set<Day>) returns (m: Day)
    requires s != {}
    ensures m in s && forall y :: y in s ==> m <= y
    decreases |s|
  {
    NonEmpty(s);
    var x :| x in s;
    var rest := s - {x};
    if rest == {} {
      m := x;
      forall y | y in s ensures m <= y {
        assert y !in rest;
      }
    } else {
      assert |rest| == |s| - 1;
      var r := Minimum(rest);
      m := if x < r then x else r;
      forall y | y in s ensures m <= y {
        if y != x {
          assert y in rest;
        }
      }
    }
  }

  lemma HasMinimum(s: set<Day>)
    requires s != {}
    ensures exists m :: m in s && forall y :: y in s ==> m <= y
  {
    var m := Minimum(s);
  }

  function MinDay(s: set<Day>): (m: Day)
    requires s != {}
    ensures m in s && forall y :: y in s ==> m <= y
  {
    HasMinimum(s);
    var m :| m in s && forall y :: y in s ==> m <= y;
    m
  }

  predicate StrictlyIncreasing(s: seq<Event>) {
    forall i, j :: 0 <= i < j < |s| ==> s[i].day < s[j].day
  }

  /** `pd.Series(div_dict).sort_index()`: the dictionary's items in increasing day order. */
  function SortIndex(m: map<Day, real>): (s: seq<Event>)
    ensures StrictlyIncreasing(s)
    ensures forall i :: 0 <= i < |s| ==> s[i].day in m && s[i].rate == m[s[i].day]
    decreases m.Keys
  {
    if m.Keys == {} then []
    else
      var d := MinDay(m.Keys);
      var rest := m - {d};
      assert rest.Keys == m.Keys - {d};
      var tail := SortIndex(rest);
      var s := [Event(d, m[d])] + tail;
      assert StrictlyIncreasing(s) by {
        forall i, j | 0 <= i < j < |s| ensures s[i].day < s[j].day {
          assert s[j] == tail[j - 1];
          if i > 0 {
            assert s[i] == tail[i - 1];
          }
        }
      }
      assert forall i :: 0 <= i < |s| ==> s[i].day in m && s[i].rate == m[s[i].day] by {
        forall i | 0 <= i < |s| ensures s[i].day in m && s[i].rate == m[s[i].day] {
          if i > 0 {
            assert s[i] == tail[i - 1];
          }
        }
      }
      s
  }

  /** Every day of the dictionary appears in the sorted series. */
  lemma {:induction false} SortIndexCovers(m: map<Day, real>, x: Day)
    requires x in m
    ensures exists i :: 0 <= i < |SortIndex(m)| && SortIndex(m)[i].day == x
    decreases m.Keys
  {
    var d := MinDay(m.Keys);
    var rest := m - {d};
    assert rest.Keys == m.Keys - {d};
    var s := SortIndex(m);
    assert s == [Event(d, m[d])] + SortIndex(rest);
    if x == d {
      assert s[0].day == x;
    } else {
      SortIndexCovers(rest, x);
      var k :| 0 <= k < |SortIndex(rest)| && SortIndex(rest)[k].day == x;
      assert s[k + 1].day == x;
    }
  }

  /** get_dividends_brapi as a function of the reply. */
  function BrapiSeries(reply: BrapiReply): Option<seq<Event>> {
    match reply
    case NoReply => None
    case Reply(cash) =>
      if exists i :: 0 <= i < |cash| && Faulty(cash[i]) then None
      else Some(SortIndex(DayTotals(cash)))
  }

  /** The loop of get_dividends_brapi over `cashDividends`, filling `div_dict` in place. */
  method GetDividendsBrapi(reply: BrapiReply) returns (r: Option<seq<Event>>)
    ensures r == BrapiSeries(reply)
  {
    if reply.NoReply? {
      return None;
    }
    var cash := reply.cashDividends;
    var divDict: map<Day, real> := map[];
    var i := 0;
    while i < |cash|
      invariant 0 <= i <= |cash|
      invariant divDict == DayTotals(cash[..i])
      invariant forall j :: 0 <= j < i ==> !Faulty(cash[j])
    {
      var d := cash[i];
      assert cash[..i + 1][..i] == cash[..i];
      match d.lastDatePrior {
        case Absent =>
        case Unparseable =>
          return None;
        case Date(day) =>
          if d.rate.None? {
            return None;
          }
          var val := d.rate.value;
          if day in divDict {
            divDict := divDict[day := divDict[day] + val];
          } else {
            divDict := divDict[day := val];
          }
      }
      i := i + 1;
    }
    assert cash[..i] == cash;
    r := Some(SortIndex(divDict));
  }

  /**
   * BRAPI's series: one event per day an entry falls on, in strictly
   * increasing day order, carrying the sum of that day's rates; entries
   * without `lastDatePrior` are dropped; any malformed entry voids the reply.
   */
  lemma BrapiSumsSameDay(cash: seq<CashDividend>)
    ensures BrapiSeries(Reply(cash)).None? <==> exists i :: 0 <= i < |cash| && Faulty(cash[i])
    ensures BrapiSeries(Reply(cash)).Some? ==>
      var s := BrapiSeries(Reply(cash)).value;
      && StrictlyIncreasing(s)
      && (forall i :: 0 <= i < |s| ==> s[i].rate == DaySum(cash, s[i].day))
      && (forall i :: 0 <= i < |s| ==> exists j :: 0 <= j < |cash| && PaysOn(cash[j], s[i].day))
      && (forall j, day :: 0 <= j < |cash| && PaysOn(cash[j], day) ==> exists i :: 0 <= i < |s| && s[i].day == day)
  {
    if BrapiSeries(Reply(cash)).Some? {
      var m := DayTotals(cash);
      var s := SortIndex(m);
      forall i | 0 <= i < |s|
        ensures s[i].rate == DaySum(cash, s[i].day)
        ensures exists j :: 0 <= j < |cash| && PaysOn(cash[j], s[i].day)
      {
        DayTotalsSumSameDay(cash, s[i].day);
      }
      forall j, day | 0 <= j < |cash| && PaysOn(cash[j], day)
        ensures exists i :: 0 <= i < |s| && s[i].day == day
      {
        DayTotalsSumSameDay(cash, day);
        SortIndexCovers(m, day);
      }
    }
  }

  // ---------------------------------------------------------------------
  // get_dividends_yahoo: the Yahoo symbol
  // ---------------------------------------------------------------------

  /** `.SA` is appended to a symbol of 4 or more characters containing a digit, unless it ends in `.SA` or `34`. */
  predicate NeedsSuffix(s: string) {
    |s| >= 4 && !EndsWith(s, ".SA") && !EndsWith(s, "34") && HasDigit(s)
  }

  function YahooSymbol(ticker: string): string {
    var s := Upper(Strip(ticker));
    if NeedsSuffix(s) then s + ".SA" else s
  }

  /**
   * The Yahoo symbol starts with the stripped, upper-cased ticker, has no
   * lower-case ASCII letter, and ends in `.SA` exactly when the ticker already
   * did or looks like a B3 ticker: at least 4 characters, a digit, and not
   * the `34` ending of a BDR. A BDR or an already suffixed ticker is left
   * as it is.
   */
  lemma YahooSymbolSpec(ticker: string)
    ensures var s := Upper(Strip(ticker));
            var r := YahooSymbol(ticker);
            && |s| <= |r| && r[..|s|] == s
            && NoLower(r)
            && (EndsWith(r, ".SA") <==> EndsWith(s, ".SA") || (|s| >= 4 && HasDigit(s) && !EndsWith(s, "34")))
            && (EndsWith(s, ".SA") || EndsWith(s, "34") ==> r == s)
            && (r == s || r == s + ".SA")
  {
    var s := Upper(Strip(ticker));
    UpperNoLower(Strip(ticker));
    if NeedsSuffix(s) {
      SuffixAppended(s);
    } else {
      assert YahooSymbol(ticker) == s;
    }
  }

  lemma UpperStripFixed(ticker: string)
    ensures var s := Upper(Strip(ticker)); Upper(Strip(s)) == s
  {
    StripUpper(Strip(ticker));
    StripIdempotent(ticker);
    UpperIdempotent(Strip(ticker));
  }

  /** An upper-case symbol that does not start with whitespace is its own symbol once suffixed. */
  lemma SuffixedFixed(s: string)
    requires s != [] && !IsSpace(s[0]) && Upper(s) == s
    ensures Upper(Strip(s + ".SA")) == s + ".SA"
  {
    var t := s + ".SA";
    assert t[0] == s[0] && t[|t| - 1] == 'A';
    StripTrimmed(t);
    forall i | 0 <= i < |t| ensures UpperChar(t[i]) == t[i] {
      if i < |s| {
        assert t[i] == s[i] && Upper(s)[i] == UpperChar(s[i]);
      }
    }
    assert Upper(t) == t;
  }

  lemma UpperKeepsLeadingNonSpace(x: string)
    requires x != [] && !IsSpace(x[0])
    ensures !IsSpace(Upper(x)[0])
  {
    assert Upper(x)[0] == UpperChar(x[0]);
  }

  /** A symbol that is its own upper-cased strip and needs no suffix is its own symbol. */
  lemma SymbolFixed(u: string)
    requires Upper(Strip(u)) == u && !NeedsSuffix(u)
    ensures YahooSymbol(u) == u
  {
  }

  /** A suffixed symbol is its own symbol. */
  lemma SuffixedSymbolFixed(s: string)
    requires s != [] && !IsSpace(s[0]) && Upper(s) == s
    ensures YahooSymbol(s + ".SA") == s + ".SA"
  {
    var t := s + ".SA";
    SuffixedFixed(s);
    SuffixedNeedsNone(s);
    SymbolFixed(t);
  }

  lemma SuffixedNeedsNone(s: string)
    ensures !NeedsSuffix(s + ".SA")
  {
    EndsWithAppend(s, ".SA");
  }

  /** Suffixing is idempotent: the symbol of a symbol is the symbol. */
  lemma YahooSymbolIdempotent(ticker: string)
    ensures YahooSymbol(YahooSymbol(ticker)) == YahooSymbol(ticker)
  {
    var x := Strip(ticker);
    UpperStripFixed(ticker);
    UpperIdempotent(x);
    if x != [] {
      UpperKeepsLeadingNonSpace(x);
    }
    var s := Upper(x);
    if NeedsSuffix(s) {
      SuffixedSymbolFixed(s);
    } else {
      SymbolFixed(s);
    }
  }

  // ---------------------------------------------------------------------
  // main: attribution of the events of every ticker
  // ---------------------------------------------------------------------

  datatype Source = Brapi | Yahoo

  /** One row of the `dividend_history` sheet (rounding and the run date are not modelled). */
  datatype HistoryRow = HistoryRow(
    ticker: string, entitlement: Day, payment: Day,
    rate: real, quantity: real, total: real, source: Source)

  /** The sheet's ticker values that the audit skips. */
  predicate Skipped(raw: string) {
    raw in ["UNKNOWN", "nan", "", "None", "USDBRL=X"] || Contains(raw, "FUNDO") || Contains(raw, "LCA")
  }

  /** The earliest parsed date among the rows of a ticker (pandas' min skips NaT). */
  function FirstDate(rows: seq<Row>, raw: string): (r: Option<Day>)
    ensures r.None? ==> forall i :: 0 <= i < |rows| && rows[i].ticker == raw ==> rows[i].date.None?
    ensures r.Some? ==> exists i :: 0 <= i < |rows| && rows[i].ticker == raw && rows[i].date == r
    ensures r.Some? ==> forall i :: 0 <= i < |rows| && rows[i].ticker == raw && rows[i].date.Some? ==> r.value <= rows[i].date.value
  {
    if rows == [] then None
    else
      var init := rows[..|rows| - 1];
      var prev := FirstDate(init, raw);
      var last := rows[|rows| - 1];
      assert forall i :: 0 <= i < |init| ==> init[i] == rows[i];
      if last.ticker != raw || last.date.None? then prev
      else if prev.Some? && prev.value <= last.date.value then prev
      else last.date
  }

  /** `min_date`: the first dated transaction, or 2008-01-01. */
  function StartDay(rows: seq<Row>, raw: string): Day {
    match FirstDate(rows, raw)
    case Some(d) => d
    case None => AuditStart
  }

  /** BRAPI first; Yahoo only when BRAPI gave None or an empty series. */
  function ChosenSource(clean: string, brapi: string -> BrapiReply): Source {
    var b := BrapiSeries(brapi(clean));
    if b.Some? && |b.value| > 0 then Brapi else Yahoo
  }

  function ChosenEvents(clean: string, brapi: string -> BrapiReply, yahoo: string -> seq<Event>): seq<Event> {
    if ChosenSource(clean, brapi) == Brapi then BrapiSeries(brapi(clean)).value else yahoo(YahooSymbol(clean))
  }

  /** BRAPI reports the entitlement date itself; Yahoo reports the ex-date, one day later. */
  function Entitlement(source: Source, day: Day): Day {
    if source == Yahoo then day - 1 else day
  }

  /** `divs[divs.index >= min_date]` */
  function Since(events: seq<Event>, start: Day): (r: seq<Event>)
    ensures forall i :: 0 <= i < |r| ==> r[i] in events && r[i].day >= start
    ensures forall e :: e in events && e.day >= start ==> e in r
  {
    if events == [] then []
    else
      var prev := Since(events[..|events| - 1], start);
      var e := events[|events| - 1];
      assert forall x :: x in events ==> x in events[..|events| - 1] || x == e;
      if e.day >= start then prev + [e] else prev
  }

  /** The filter keeps the order of the series: filtering a concatenation filters each part. */
  lemma {:induction false} SinceAppend(a: seq<Event>, b: seq<Event>, start: Day)
    ensures Since(a + b, start) == Since(a, start) + Since(b, start)
    decreases |b|
  {
    if b == [] {
      assert a + b == a;
    } else {
      var b' := b[..|b| - 1];
      assert (a + b)[..|a + b| - 1] == a + b';
      SinceAppend(a, b', start);
    }
  }

  /** One event is kept exactly when it is dated on or after the start. */
  lemma SinceOne(e: Event, start: Day)
    ensures Since([e], start) == if e.day >= start then [e] else []
  {
    assert [e][..0] == [];
  }

  /** The row an event yields, when the position on its entitlement date is positive. */
  function Receipt(rows: seq<Row>, ticker: string, source: Source, e: Event): Option<HistoryRow> {
    var com := Entitlement(source, e.day);
    var q := Position(rows, ticker, com);
    if q > 0.0 then Some(HistoryRow(ticker, com, com + 15, e.rate, q, q * e.rate, source)) else None
  }

  function Attribute(rows: seq<Row>, ticker: string, source: Source, events: seq<Event>): seq<HistoryRow> {
    if events == [] then []
    else
      var prev := Attribute(rows, ticker, source, events[..|events| - 1]);
      match Receipt(rows, ticker, source, events[|events| - 1])
      case Some(r) => prev + [r]
      case None => prev
  }

  /** The rows of one ticker of the sheet. */
  function TickerHistory(rows: seq<Row>, raw: string, brapi: string -> BrapiReply, yahoo: string -> seq<Event>): seq<HistoryRow> {
    if Skipped(raw) then []
    else
      var clean := Upper(Strip(raw));
      Attribute(rows, clean, ChosenSource(clean, brapi), Since(ChosenEvents(clean, brapi, yahoo), StartDay(rows, raw)))
  }

  function History(rows: seq<Row>, tickers: seq<string>, brapi: string -> BrapiReply, yahoo: string -> seq<Event>): seq<HistoryRow> {
    Flatten(tickers, t => TickerHistory(rows, t, brapi, yahoo))
  }

  function Tickers(rows: seq<Row>): seq<string> {
    Unique(seq(|rows|, i requires 0 <= i < |rows| => rows[i].ticker))
  }

  function EntitlementOf(r: HistoryRow): int {
    r.entitlement
  }

  /** The loop over one ticker's events, appending to `historico_final`. */
  method AttributeEvents(rows: seq<Row>, ticker: string, source: Source, events: seq<Event>) returns (found: seq<HistoryRow>)
    ensures found == Attribute(rows, ticker, source, events)
  {
    found := [];
    var i := 0;
    while i < |events|
      invariant 0 <= i <= |events|
      invariant found == Attribute(rows, ticker, source, events[..i])
    {
      var e := events[i];
      assert events[..i + 1][..i] == events[..i];
      assert events[..i + 1][i] == e;
      var dataCom := Entitlement(source, e.day);
      var qtd := PositionAsOf(rows, ticker, dataCom);
      assert qtd == Position(rows, ticker, Entitlement(source, e.day));
      if qtd > 0.0 {
        var row := HistoryRow(ticker, dataCom, dataCom + 15, e.rate, qtd, qtd * e.rate, source);
        assert Position(rows, ticker, Entitlement(source, e.day)) > 0.0;
        assert Receipt(rows, ticker, source, e).Some?;
        assert Receipt(rows, ticker, source, e).value.quantity == qtd;
        assert Receipt(rows, ticker, source, e).value.total == qtd * e.rate;
        assert Receipt(rows, ticker, source, e) == Some(row);
        found := found + [row];
      } else {
        assert Receipt(rows, ticker, source, e) == None;
      }
      i := i + 1;
    }
    assert events[..i] == events;
  }

  /** main(): every ticker of the sheet in order of first appearance, then the sort by entitlement date. */
  method AuditDividends(rows: seq<Row>, brapi: string -> BrapiReply, yahoo: string -> seq<Event>) returns (history: seq<HistoryRow>)
    ensures history == SortBy(History(rows, Tickers(rows), brapi, yahoo), EntitlementOf)
    ensures SortedBy(history, EntitlementOf)
    ensures multiset(history) == multiset(History(rows, Tickers(rows), brapi, yahoo))
  {
    var tickers := Tickers(rows);
    var all: seq<HistoryRow> := [];
    var k := 0;
    while k < |tickers|
      invariant 0 <= k <= |tickers|
      invariant all == History(rows, tickers[..k], brapi, yahoo)
    {
      HistoryStep(rows, tickers, brapi, yahoo, k);
      var found := AuditTicker(rows, tickers[k], brapi, yahoo);
      all := all + found;
      k := k + 1;
    }
    assert tickers[..k] == tickers;
    history := SortBy(all, EntitlementOf);
  }

  lemma HistoryStep(rows: seq<Row>, tickers: seq<string>, brapi: string -> BrapiReply, yahoo: string -> seq<Event>, k: nat)
    requires k < |tickers|
    ensures History(rows, tickers[..k + 1], brapi, yahoo) == History(rows, tickers[..k], brapi, yahoo) + TickerHistory(rows, tickers[k], brapi, yahoo)
  {
    assert tickers[..k + 1][..k] == tickers[..k];
  }

  /** Lines 158-205 for one ticker of the sheet. */
  method AuditTicker(rows: seq<Row>, raw: string, brapi: string -> BrapiReply, yahoo: string -> seq<Event>) returns (found: seq<HistoryRow>)
    ensures found == TickerHistory(rows, raw, brapi, yahoo)
  {
    found := [];
    if !Skipped(raw) {
      var clean := Upper(Strip(raw));
      var start := StartDay(rows, raw);
      var divs := GetDividendsBrapi(brapi(clean));
      var source := Brapi;
      if divs.None? || |divs.value| == 0 {
        var y := yahoo(YahooSymbol(clean));
        divs := if |y| == 0 then None else Some(y);
        source := Yahoo;
      }
      if divs.Some? && |divs.value| > 0 {
        found := AttributeEvents(rows, clean, source, Since(divs.value, start));
      }
    }
  }

  // ---------------------------------------------------------------------
  // What the audit promises
  // ---------------------------------------------------------------------

  /** Every attributed row: a positive position on its entitlement date, total = quantity x rate, paid 15 days later. */
  predicate WellAttributed(rows: seq<Row>, r: HistoryRow) {
    && r.quantity > 0.0
    && r.quantity == Position(rows, r.ticker, r.entitlement)
    && r.total == r.quantity * r.rate
    && r.payment == r.entitlement + 15
  }

  /** Every attributed row is well attributed and stems from one of the events. */
  lemma {:induction false} AttributeSound(rows: seq<Row>, ticker: string, source: Source, events: seq<Event>)
    ensures forall r :: r in Attribute(rows, ticker, source, events) ==>
      WellAttributed(rows, r) && r.ticker == ticker && r.source == source &&
      exists e :: e in events && r.entitlement == Entitlement(source, e.day) && r.rate == e.rate
  {
    if events != [] {
      var init := events[..|events| - 1];
      var last := events[|events| - 1];
      AttributeSound(rows, ticker, source, init);
      var prev := Attribute(rows, ticker, source, init);
      forall r | r in Attribute(rows, ticker, source, events)
        ensures WellAttributed(rows, r) && r.ticker == ticker && r.source == source
        ensures exists e :: e in events && r.entitlement == Entitlement(source, e.day) && r.rate == e.rate
      {
        if r in prev {
          var e :| e in init && r.entitlement == Entitlement(source, e.day) && r.rate == e.rate;
          assert e in events;
        } else {
          assert Receipt(rows, ticker, source, last) == Some(r);
          assert last in events;
        }
      }
    }
  }

  /** An event with a positive position on its entitlement date is attributed. */
  lemma {:induction false} AttributeComplete(rows: seq<Row>, ticker: string, source: Source, events: seq<Event>, e: Event)
    requires e in events && Position(rows, ticker, Entitlement(source, e.day)) > 0.0
    ensures exists r :: r in Attribute(rows, ticker, source, events) && r.entitlement == Entitlement(source, e.day) && r.rate == e.rate
  {
    var init := events[..|events| - 1];
    var last := events[|events| - 1];
    var prev := Attribute(rows, ticker, source, init);
    var all := Attribute(rows, ticker, source, events);
    if e == last {
      var r := Receipt(rows, ticker, source, last).value;
      assert all == prev + [r];
      assert r in all;
    } else {
      assert events == init + [last];
      assert e in init;
      AttributeComplete(rows, ticker, source, init, e);
      var r :| r in prev && r.entitlement == Entitlement(source, e.day) && r.rate == e.rate;
      assert forall x :: x in prev ==> x in all;
      assert r in all;
    }
  }

  /** A skipped ticker yields no rows. */
  lemma SkippedTickerHasNoRows(rows: seq<Row>, raw: string, brapi: string -> BrapiReply, yahoo: string -> seq<Event>)
    requires Skipped(raw)
    ensures TickerHistory(rows, raw, brapi, yahoo) == []
  {
  }

  /** The history of a concatenation of ticker lists is the two histories in turn. */
  lemma HistoryAppend(rows: seq<Row>, a: seq<string>, b: seq<string>, brapi: string -> BrapiReply, yahoo: string -> seq<Event>)
    ensures History(rows, a + b, brapi, yahoo) == History(rows, a, brapi, yahoo) + History(rows, b, brapi, yahoo)
  {
    FlattenAppend(a, b, t => TickerHistory(rows, t, brapi, yahoo));
  }

  lemma SkippedHistoryEmpty(rows: seq<Row>, raw: string, brapi: string -> BrapiReply, yahoo: string -> seq<Event>)
    requires Skipped(raw)
    ensures History(rows, [raw], brapi, yahoo) == []
  {
    var f := t => TickerHistory(rows, t, brapi, yahoo);
    assert [raw][..0] == [];
    assert Flatten([raw], f) == Flatten([], f) + f(raw);
  }

  /** A skipped ticker, wherever it stands in the ticker list, changes nothing in the history. */
  lemma SkippedTickerIgnored(rows: seq<Row>, a: seq<string>, raw: string, b: seq<string>,
                             brapi: string -> BrapiReply, yahoo: string -> seq<Event>)
    requires Skipped(raw)
    ensures History(rows, a + [raw] + b, brapi, yahoo) == History(rows, a + b, brapi, yahoo)
  {
    HistoryAppend(rows, a + [raw], b, brapi, yahoo);
    SkippedAppended(rows, a, raw, brapi, yahoo);
    HistoryAppend(rows, a, b, brapi, yahoo);
  }

  lemma SkippedAppended(rows: seq<Row>, a: seq<string>, raw: string, brapi: string -> BrapiReply, yahoo: string -> seq<Event>)
    requires Skipped(raw)
    ensures History(rows, a + [raw], brapi, yahoo) == History(rows, a, brapi, yahoo)
  {
    HistoryAppend(rows, a, [raw], brapi, yahoo);
    SkippedHistoryEmpty(rows, raw, brapi, yahoo);
  }

  /**
   * The whole series of a ticker comes from one source: BRAPI whenever it
   * gave a non-empty series, Yahoo otherwise. Every row stems from an event
   * dated on or after the ticker's first transaction, at the reported date
   * for BRAPI and the ex-date minus one day for Yahoo; and every such event
   * with a positive position yields a row.
   */
  lemma TickerSeriesFromOneSource(rows: seq<Row>, raw: string, brapi: string -> BrapiReply, yahoo: string -> seq<Event>)
    requires !Skipped(raw)
    ensures var clean := Upper(Strip(raw));
            var source := ChosenSource(clean, brapi);
            forall r :: r in TickerHistory(rows, raw, brapi, yahoo) ==>
              WellAttributed(rows, r) && r.ticker == clean && r.source == source &&
              exists e :: e in ChosenEvents(clean, brapi, yahoo) && e.day >= StartDay(rows, raw) &&
                r.entitlement == Entitlement(source, e.day) && r.rate == e.rate
  {
    var clean := Upper(Strip(raw));
    var source := ChosenSource(clean, brapi);
    var events := ChosenEvents(clean, brapi, yahoo);
    var start := StartDay(rows, raw);
    var kept := Since(events, start);
    AttributeSound(rows, clean, source, kept);
    forall r | r in TickerHistory(rows, raw, brapi, yahoo)
      ensures exists e :: e in events && e.day >= start && r.entitlement == Entitlement(source, e.day) && r.rate == e.rate
    {
      var e :| e in kept && r.entitlement == Entitlement(source, e.day) && r.rate == e.rate;
    }
  }

  /** Conversely, every event of the chosen series dated from the start day on, with a positive position, yields a row. */
  lemma QualifyingEventAttributed(rows: seq<Row>, raw: string, brapi: string -> BrapiReply, yahoo: string -> seq<Event>, e: Event)
    requires !Skipped(raw)
    requires e in ChosenEvents(Upper(Strip(raw)), brapi, yahoo) && e.day >= StartDay(rows, raw)
    requires Position(rows, Upper(Strip(raw)), Entitlement(ChosenSource(Upper(Strip(raw)), brapi), e.day)) > 0.0
    ensures exists r :: r in TickerHistory(rows, raw, brapi, yahoo) &&
              r.entitlement == Entitlement(ChosenSource(Upper(Strip(raw)), brapi), e.day) && r.rate == e.rate
  {
    var clean := Upper(Strip(raw));
    var kept := Since(ChosenEvents(clean, brapi, yahoo), StartDay(rows, raw));
    assert e in kept;
    AttributeComplete(rows, clean, ChosenSource(clean, brapi), kept, e);
  }

  lemma {:induction false} HistoryWellAttributed(rows: seq<Row>, tickers: seq<string>, brapi: string -> BrapiReply, yahoo: string -> seq<Event>)
    ensures forall r :: r in History(rows, tickers, brapi, yahoo) ==> WellAttributed(rows, r)
  {
    if tickers != [] {
      HistoryWellAttributed(rows, tickers[..|tickers| - 1], brapi, yahoo);
      var raw := tickers[|tickers| - 1];
      if !Skipped(raw) {
        TickerSeriesFromOneSource(rows, raw, brapi, yahoo);
      }
    }
  }

  /** The sheet the audit writes: sorted by entitlement date, every row well attributed. */
  lemma AuditOutputWellAttributed(rows: seq<Row>, brapi: string -> BrapiReply, yahoo: string -> seq<Event>)
    ensures var out := SortBy(History(rows, Tickers(rows), brapi, yahoo), EntitlementOf);
            SortedBy(out, EntitlementOf) && forall r :: r in out ==> WellAttributed(rows, r)
  {
    var all := History(rows, Tickers(rows), brapi, yahoo);
    HistoryWellAttributed(rows, Tickers(rows), brapi, yahoo);
    var out := SortBy(all, EntitlementOf);
    forall r | r in out ensures WellAttributed(rows, r) {
      assert r in multiset(out);
    }
  }

  /** The entitled case: 100 units bought before an event of 0.50 yields one row of 50.00. */
  lemma EntitledExample()
    ensures Attribute([Row("PETR4", Some(18262), "COMPRA", Number(100.0))], "PETR4", Brapi, [Event(18413, 0.5)])
         == [HistoryRow("PETR4", 18413, 18428, 0.5, 100.0, 50.0, Brapi)]
  {
    PositionExamples();
    assert [Event(18413, 0.5)][..0] == [];
  }

  /** Sold before the record date: no row. */
  lemma DisposedExample()
    ensures Attribute([Row("PETR4", Some(18262), "compra", Number(100.0)), Row("PETR4", Some(18383), "VENDA", Number(100.0))],
                      "PETR4", Brapi, [Event(18413, 0.5)]) == []
  {
    PositionExamples();
    assert [Event(18413, 0.5)][..0] == [];
  }
}
