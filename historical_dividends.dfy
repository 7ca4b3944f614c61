/**
 * The offline recomputation of calcular_dividendos_historicos.py: the CSV
 * ledger is loaded with one inline number rule, every ticker's Yahoo series
 * is matched against the quantity held the day before each ex-date, and the
 * receipts are written newest first.
 *
 * The Yahoo call is a parameter: `yahoo` maps a normalised symbol to its
 * dividend series, or to None when the call raises.
 */
module HistoricalDividends {
  import opened Common
  import opened Text
  import opened PyFloat
  import DividendHistory

  // ---------------------------------------------------------------------
  // Loading the ledger
  // ---------------------------------------------------------------------

  /** A number of the ledger: a value, or the NaN an empty cell becomes. */
  datatype Number = Real(value: real) | NotANumber

  /** The inline rule: drop quotes, drop every point, turn commas into points. */
  function InlineText(s: string): string {
    ReplaceAll(RemoveAll(RemoveAll(s, '"'), '.'), ',', '.')
  }

  /**
   * Line 55 on the `astype(str)` text of a cell, then `astype(float)`.
   * An empty cell is NaN, whose text `nan` reads back as NaN.
   */
  function InlineClean(s: string): Option<Number> {
    var c := InlineText(s);
    match ParseFloat(c)
    case Some(v) => Some(Real(v))
    case None => if NanSpelling(c) then Some(NotANumber) else None
  }

  /** A ticker cell: a name, or a blank cell that pandas reads as NaN. */
  datatype TickerCell = Named(name: string) | Blank

  /** A date cell: parsed, blank (NaT), or text pd.to_datetime rejects. */
  datatype DateCell = Parsed(day: Day) | Missing | Invalid

  /** A CSV row; `kind` is None where the type cell is blank. */
  datatype RawEntry = RawEntry(ticker: TickerCell, date: DateCell, kind: Option<string>, quantity: string, price: string, total: string)

  /** A loaded row. */
  datatype Entry = Entry(ticker: TickerCell, date: Option<Day>, kind: Option<string>, quantity: Number)

  /** A row loads when its three numeric cells pass the rule and its date parses or is blank. */
  function LoadEntry(r: RawEntry): Option<Entry> {
    var q := InlineClean(r.quantity);
    if q.None? || InlineClean(r.price).None? || InlineClean(r.total).None? || r.date.Invalid? then None
    else Some(Entry(r.ticker, if r.date.Parsed? then Some(r.date.day) else None, r.kind, q.value))
  }

  /** The load step: any cell that fails aborts the run before anything is computed. */
  function Load(raw: seq<RawEntry>): Option<seq<Entry>> {
    MapAll(raw, LoadEntry)
  }

  /** The text `nan` of an empty cell loads as NaN rather than failing the run. */
  lemma EmptyCellIsNaN()
    ensures InlineClean("nan") == Some(NotANumber)
  {
    NanCellText();
    NanTextIsNan();
    NanCellLoads("nan");
  }

  /** A cell whose cleaned text spells NaN loads as NaN. */
  lemma NanCellLoads(s: string)
    requires NanSpelling(InlineText(s))
    ensures InlineClean(s) == Some(NotANumber)
  {
    NanNotParsed(InlineText(s));
  }

  lemma NanCellText()
    ensures InlineText("nan") == "nan"
  {
    var n := "nan";
    assert n[0] == 'n' && n[1] == 'a' && n[2] == 'n';
    assert '"' !in n && '.' !in n && ',' !in n;
    RemoveAllAbsent(n, '"');
    RemoveAllAbsent(n, '.');
    ReplaceAllAbsent(n, ',', '.');
  }

  /**
   * The ledger loads exactly when every row does; then it keeps the rows in
   * order with their ticker, type and date, and each number is what the
   * inline rule reads from its cell.
   */
  lemma LoadSpec(raw: seq<RawEntry>)
    ensures Load(raw).Some? <==> forall i :: 0 <= i < |raw| ==> LoadEntry(raw[i]).Some?
    ensures Load(raw).Some? ==>
              var entries := Load(raw).value;
              && |entries| == |raw|
              && forall i :: 0 <= i < |raw| ==>
                   && entries[i].ticker == raw[i].ticker
                   && entries[i].kind == raw[i].kind
                   && (raw[i].date.Parsed? ==> entries[i].date == Some(raw[i].date.day))
                   && (raw[i].date.Missing? ==> entries[i].date.None?)
                   && InlineClean(raw[i].quantity) == Some(entries[i].quantity)
  {
    MapAllSpec(raw, LoadEntry);
    if Load(raw).Some? {
      var entries := Load(raw).value;
      forall i | 0 <= i < |raw|
        ensures && entries[i].ticker == raw[i].ticker
                && entries[i].kind == raw[i].kind
                && (raw[i].date.Parsed? ==> entries[i].date == Some(raw[i].date.day))
                && (raw[i].date.Missing? ==> entries[i].date.None?)
                && InlineClean(raw[i].quantity) == Some(entries[i].quantity)
      {
        LoadEntryKeeps(raw[i], entries[i]);
      }
    }
  }

  /** A row that loads keeps its ticker, type and date, and carries the number read from its cell. */
  lemma LoadEntryKeeps(r: RawEntry, e: Entry)
    requires LoadEntry(r) == Some(e)
    ensures e.ticker == r.ticker && e.kind == r.kind
    ensures r.date.Parsed? ==> e.date == Some(r.date.day)
    ensures r.date.Missing? ==> e.date.None?
    ensures InlineClean(r.quantity) == Some(e.quantity)
  {
  }

  /** One cell the rule cannot read, or one date that does not parse, aborts the whole run. */
  lemma BadCellAbortsLoad(raw: seq<RawEntry>, yahoo: string -> Option<seq<Event>>, i: nat)
    requires i < |raw|
    requires || InlineClean(raw[i].quantity).None? || InlineClean(raw[i].price).None?
             || InlineClean(raw[i].total).None? || raw[i].date.Invalid?
    ensures Load(raw).None?
    ensures HistoricalOutput(raw, yahoo).None?
  {
    RowFails(raw[i]);
    LoadSpec(raw);
  }

  lemma RowFails(r: RawEntry)
    requires || InlineClean(r.quantity).None? || InlineClean(r.price).None?
             || InlineClean(r.total).None? || r.date.Invalid?
    ensures LoadEntry(r).None?
  {
  }

  /** The inline rule on Brazilian notation: the dots go, the comma becomes the decimal point. */
  lemma InlineOnBrazilian(sign: Sign, grouped: string, fraction: string)
    requires DividendHistory.DottedDigits(grouped) && AllDigits(fraction)
    requires |RemoveAll(grouped, '.')| > 0 || |fraction| > 0
    ensures AllDigits(RemoveAll(grouped, '.'))
    ensures InlineClean(SignText(sign) + grouped + "," + fraction) == Some(Real(Value(Literal(sign, RemoveAll(grouped, '.'), true, fraction))))
  {
    DividendHistory.DottedDigitsRemoveDots(grouped);
    var whole := RemoveAll(grouped, '.');
    var s := SignText(sign) + grouped + "," + fraction;
    var l := Literal(sign, whole, true, fraction);
    DividendHistory.SignTextPlain(sign);
    assert '"' !in s;
    RemoveAllAbsent(s, '"');
    var undotted := SignText(sign) + whole + "," + fraction;
    DividendHistory.DropThousandsDots(sign, grouped, fraction);
    assert RemoveAll(RemoveAll(s, '"'), '.') == undotted;
    DividendHistory.CommaToPoint(sign, whole, fraction);
    assert ReplaceAll(undotted, ',', '.') == Spell(l);
    DividendHistory.FloatOfSpelling(l);
  }

  /** On Brazilian notation with a comma the inline rule and clean_float agree. */
  lemma InlineAgreesWithCleanFloat(sign: Sign, grouped: string, fraction: string)
    requires DividendHistory.DottedDigits(grouped) && AllDigits(fraction)
    requires |RemoveAll(grouped, '.')| > 0 || |fraction| > 0
    ensures InlineClean(SignText(sign) + grouped + "," + fraction) ==
            Some(Real(DividendHistory.CleanFloat(DividendHistory.Str(SignText(sign) + grouped + "," + fraction))))
  {
    DividendHistory.CommaIsDecimalSeparator(sign, grouped, fraction);
    InlineOnBrazilian(sign, grouped, fraction);
  }

  lemma DropPoints(sign: Sign, grouped: string)
    requires DividendHistory.DottedDigits(grouped)
    ensures RemoveAll(RemoveAll(SignText(sign) + grouped, '"'), '.') == SignText(sign) + RemoveAll(grouped, '.')
  {
    var s := SignText(sign) + grouped;
    DividendHistory.DottedDigitsRemoveDots(grouped);
    DividendHistory.SignTextPlain(sign);
    assert '"' !in s;
    RemoveAllAbsent(s, '"');
    RemoveAllAppend(SignText(sign), grouped, '.');
    RemoveAllAbsent(SignText(sign), '.');
  }

  /** A spelling without a comma is left alone by the comma replacement. */
  lemma ParseCommaFree(l: Literal)
    requires WellFormed(l)
    ensures ParseFloat(ReplaceAll(Spell(l), ',', '.')) == Some(Value(l))
  {
    DividendHistory.LiteralEnds(l);
    ReplaceAllAbsent(Spell(l), ',', '.');
    DividendHistory.FloatOfSpelling(l);
  }

  /** Without a comma the inline rule takes every point for a thousands separator. */
  lemma InlineDropsEveryPoint(sign: Sign, grouped: string)
    requires DividendHistory.DottedDigits(grouped) && |RemoveAll(grouped, '.')| > 0
    ensures AllDigits(RemoveAll(grouped, '.'))
    ensures InlineClean(SignText(sign) + grouped) == Some(Real(Value(Literal(sign, RemoveAll(grouped, '.'), false, ""))))
  {
    DividendHistory.DottedDigitsRemoveDots(grouped);
    var l := Literal(sign, RemoveAll(grouped, '.'), false, "");
    DropPoints(sign, grouped);
    assert Spell(l) == SignText(sign) + RemoveAll(grouped, '.');
    ParseCommaFree(l);
  }

  lemma InlineSpelling()
    ensures InlineClean("" + "1.957") == Some(Real(Value(Literal(NoSign, "1957", false, ""))))
  {
    assert DividendHistory.DottedDigits("1.957");
    DividendHistory.ThousandsDotDropped();
    InlineDropsEveryPoint(NoSign, "1.957");
  }

  lemma InlineValue()
    ensures Value(Literal(NoSign, "1957", false, "")) == 1957.0
  {
    assert DigitsValue("1957") == 1957 by {
      assert "1957"[..3] == "195";
      assert "195"[..2] == "19";
      assert "19"[..1] == "1";
      assert "1"[..0] == "";
    }
  }

  lemma UnsignedCellText()
    ensures "" + "1.957" == "1.957"
  {
  }

  lemma InlineParse()
    ensures InlineClean("1.957") == Some(Real(1957.0))
  {
    InlineSpelling();
    UnsignedCellText();
    InlineValue();
  }

  /** The two scripts read the same cell "1.957" as 1957 and as 1.957. */
  lemma RulesDisagreeOnPoint()
    ensures InlineClean("1.957") == Some(Real(1957.0))
    ensures DividendHistory.CleanFloat(DividendHistory.Str("1.957")) == 1.957
  {
    InlineParse();
    DividendHistory.PointExample();
  }

  // ---------------------------------------------------------------------
  // normalizar_ticker_yahoo
  // ---------------------------------------------------------------------

  predicate TakesSuffix(t: string) {
    (EndsWith(t, "11") || EndsWith(t, "3") || EndsWith(t, "4") || EndsWith(t, "5") || EndsWith(t, "6")) && !EndsWith(t, ".SA")
  }

  function Normalize(ticker: string): string {
    var t := Strip(Upper(ticker));
    if TakesSuffix(t) then t + ".SA" else t
  }

  /**
   * The Yahoo name starts with the upper-cased, stripped ticker, has no
   * lower-case ASCII letter, and ends in `.SA` exactly when the ticker
   * already did or ends in 11, 3, 4, 5 or 6; an already suffixed ticker is
   * left as it is.
   */
  lemma NormalizeSpec(ticker: string)
    ensures var t := Strip(Upper(ticker));
            var r := Normalize(ticker);
            && |t| <= |r| && r[..|t|] == t
            && NoLower(r)
            && (EndsWith(r, ".SA") <==> EndsWith(t, ".SA") || EndsWith(t, "11") || EndsWith(t, "3")
                                        || EndsWith(t, "4") || EndsWith(t, "5") || EndsWith(t, "6"))
            && (EndsWith(t, ".SA") ==> r == t)
            && (r == t || r == t + ".SA")
  {
    var t := Strip(Upper(ticker));
    UpperNoLower(ticker);
    StripNoLower(Upper(ticker));
    if TakesSuffix(t) {
      SuffixAppended(t);
    } else {
      assert Normalize(ticker) == t;
    }
  }

  lemma NormalizedBaseFixed(ticker: string)
    ensures var t := Strip(Upper(ticker)); Strip(Upper(t)) == t && Upper(t) == t
  {
    var u := Upper(ticker);
    StripUpper(u);
    UpperIdempotent(ticker);
    StripIdempotent(u);
  }

  /** A name that is its own stripped upper case and takes no suffix is its own normal form. */
  lemma NormalFixed(u: string)
    requires Strip(Upper(u)) == u && !TakesSuffix(u)
    ensures Normalize(u) == u
  {
  }

  lemma SuffixedUpper(t: string)
    requires Upper(t) == t
    ensures Upper(t + ".SA") == t + ".SA"
  {
    var n := t + ".SA";
    forall i | 0 <= i < |n| ensures UpperChar(n[i]) == n[i] {
      if i < |t| {
        assert n[i] == t[i] && Upper(t)[i] == UpperChar(t[i]);
      }
    }
  }

  lemma SuffixedTakesNone(t: string)
    ensures !TakesSuffix(t + ".SA")
  {
    EndsWithAppend(t, ".SA");
  }

  /** A suffixed normal name is its own normal form. */
  lemma SuffixedNormalFixed(t: string)
    requires t != [] && !IsSpace(t[0]) && Upper(t) == t
    ensures Normalize(t + ".SA") == t + ".SA"
  {
    var n := t + ".SA";
    SuffixedUpper(t);
    assert n[0] == t[0] && n[|n| - 1] == 'A';
    StripTrimmed(n);
    SuffixedTakesNone(t);
    NormalFixed(n);
  }

  /** Normalising a normalised symbol changes nothing. */
  lemma NormalizeIdempotent(ticker: string)
    ensures Normalize(Normalize(ticker)) == Normalize(ticker)
  {
    var t := Strip(Upper(ticker));
    NormalizedBaseFixed(ticker);
    if TakesSuffix(t) {
      SuffixedLeadsPlain(t);
      SuffixedNormalFixed(t);
      assert Normalize(ticker) == t + ".SA";
    } else {
      NormalFixed(t);
    }
  }

  lemma SuffixedLeadsPlain(t: string)
    requires TakesSuffix(t) && Strip(t) == t
    ensures t != [] && !IsSpace(t[0])
  {
    if EndsWith(t, "11") {
      assert |"11"| <= |t|;
    } else {
      assert EndsWith(t, "3") || EndsWith(t, "4") || EndsWith(t, "5") || EndsWith(t, "6");
      assert 1 <= |t|;
    }
    StrippedLeads(t);
  }

  // ---------------------------------------------------------------------
  // calcular_quantidade_na_data
  // ---------------------------------------------------------------------

  const IncreasingKinds: set<string> := {"COMPRA", "BONIFICACAO", "DESDOBRAMENTO"}
  const DecreasingKinds: set<string> := {"VENDA", "AGRUPAMENTO"}

  predicate InScope(e: Entry, t: TickerCell, cutoff: Day) {
    e.ticker == t && e.date.Some? && e.date.value <= cutoff
  }

  /** Float addition on the ledger's numbers: NaN absorbs everything. */
  function Plus(a: Number, b: Number): Number {
    if a.Real? && b.Real? then Real(a.value + b.value) else NotANumber
  }

  function Minus(a: Number, b: Number): Number {
    if a.Real? && b.Real? then Real(a.value - b.value) else NotANumber
  }

  /** Lines 36-40: a row's quantity moves the count by its type; other types leave it. */
  function Step(qtd: Number, kind: string, q: Number): Number {
    var k := Upper(kind);
    if k in IncreasingKinds then Plus(qtd, q) else if k in DecreasingKinds then Minus(qtd, q) else qtd
  }

  /** The net quantity in scope, or None where a row in scope has a blank type (`.upper()` raises). */
  function Holding(entries: seq<Entry>, t: TickerCell, cutoff: Day): Option<Number> {
    if entries == [] then Some(Real(0.0))
    else
      var prev := Holding(entries[..|entries| - 1], t, cutoff);
      var last := entries[|entries| - 1];
      if !InScope(last, t, cutoff) then prev
      else if prev.None? || last.kind.None? then None
      else Some(Step(prev.value, last.kind.value, last.quantity))
  }

  /** `max(0.0, qtd)`, which is 0.0 when qtd is NaN (NaN is not greater than 0.0). */
  function PyMax0(qtd: Number): real {
    match qtd
    case Real(q) => Max0(q)
    case NotANumber => 0.0
  }

  function QuantityAsOf(entries: seq<Entry>, t: TickerCell, cutoff: Day): Option<real> {
    match Holding(entries, t, cutoff)
    case None => None
    case Some(q) => Some(PyMax0(q))
  }

  /** The count raises exactly when some row in scope has a blank type. */
  lemma {:induction false} QuantityRaisesIff(entries: seq<Entry>, t: TickerCell, cutoff: Day)
    ensures QuantityAsOf(entries, t, cutoff).None? <==>
            exists i :: 0 <= i < |entries| && InScope(entries[i], t, cutoff) && entries[i].kind.None?
  {
    if entries != [] {
      var init := entries[..|entries| - 1];
      QuantityRaisesIff(init, t, cutoff);
      if exists i :: 0 <= i < |init| && InScope(init[i], t, cutoff) && init[i].kind.None? {
        var i :| 0 <= i < |init| && InScope(init[i], t, cutoff) && init[i].kind.None?;
        assert entries[i] == init[i];
      }
      if exists i :: 0 <= i < |entries| && InScope(entries[i], t, cutoff) && entries[i].kind.None? {
        var i :| 0 <= i < |entries| && InScope(entries[i], t, cutoff) && entries[i].kind.None?;
        if i < |init| {
          assert init[i] == entries[i];
        }
      }
    }
  }

  /** The count is never negative. */
  lemma QuantityNonNegative(entries: seq<Entry>, t: TickerCell, cutoff: Day)
    ensures QuantityAsOf(entries, t, cutoff).Some? ==> QuantityAsOf(entries, t, cutoff).value >= 0.0
  {
  }

  /** With no row of the ticker dated up to the cutoff the count is 0. */
  lemma {:induction false} NothingInScopeIsZero(entries: seq<Entry>, t: TickerCell, cutoff: Day)
    requires forall i :: 0 <= i < |entries| ==> !InScope(entries[i], t, cutoff)
    ensures QuantityAsOf(entries, t, cutoff) == Some(0.0)
  {
    if entries != [] {
      var init := entries[..|entries| - 1];
      assert forall i :: 0 <= i < |init| ==> init[i] == entries[i];
      NothingInScopeIsZero(init, t, cutoff);
    }
  }

  /** The count over a longer ledger depends on its prefix only through the prefix's count. */
  lemma {:induction false} HoldingCongruent(a: seq<Entry>, a': seq<Entry>, b: seq<Entry>, t: TickerCell, cutoff: Day)
    requires Holding(a, t, cutoff) == Holding(a', t, cutoff)
    ensures Holding(a + b, t, cutoff) == Holding(a' + b, t, cutoff)
    decreases |b|
  {
    if b == [] {
      assert a + b == a && a' + b == a';
    } else {
      var b' := b[..|b| - 1];
      assert (a + b)[..|a + b| - 1] == a + b';
      assert (a' + b)[..|a' + b| - 1] == a' + b';
      assert (a + b)[|a + b| - 1] == (a' + b)[|a' + b| - 1] == b[|b| - 1];
      HoldingCongruent(a, a', b', t, cutoff);
    }
  }

  lemma OtherKindStep(a: seq<Entry>, e: Entry, t: TickerCell, cutoff: Day)
    requires e.kind.Some? && Upper(e.kind.value) !in IncreasingKinds && Upper(e.kind.value) !in DecreasingKinds
    ensures Holding(a + [e], t, cutoff) == Holding(a, t, cutoff)
  {
    assert (a + [e])[..|a|] == a;
  }

  /** A row of any other type, BUY and SELL among them, anywhere in the ledger, leaves the count as it was. */
  lemma OtherKindIgnored(a: seq<Entry>, e: Entry, b: seq<Entry>, t: TickerCell, cutoff: Day)
    requires e.kind.Some? && Upper(e.kind.value) !in IncreasingKinds && Upper(e.kind.value) !in DecreasingKinds
    ensures QuantityAsOf(a + [e] + b, t, cutoff) == QuantityAsOf(a + b, t, cutoff)
  {
    OtherKindStep(a, e, t, cutoff);
    HoldingCongruent(a + [e], a, b, t, cutoff);
  }

  lemma {:induction false} OtherTickersAppended(entries: seq<Entry>, others: seq<Entry>, t: TickerCell, cutoff: Day)
    requires forall i :: 0 <= i < |others| ==> others[i].ticker != t
    ensures Holding(entries + others, t, cutoff) == Holding(entries, t, cutoff)
    decreases |others|
  {
    if others == [] {
      assert entries + others == entries;
    } else {
      var init := others[..|others| - 1];
      assert (entries + others)[..|entries + others| - 1] == entries + init;
      OtherTickersAppended(entries, init, t, cutoff);
    }
  }

  /** Rows of other tickers, anywhere in the ledger, change neither the count nor whether it raises. */
  lemma OtherTickersIgnored(a: seq<Entry>, others: seq<Entry>, b: seq<Entry>, t: TickerCell, cutoff: Day)
    requires forall i :: 0 <= i < |others| ==> others[i].ticker != t
    ensures Holding(a + others + b, t, cutoff) == Holding(a + b, t, cutoff)
  {
    OtherTickersAppended(a, others, t, cutoff);
    HoldingCongruent(a + others, a, b, t, cutoff);
  }

  /**
   * A buy or sell row in scope whose quantity cell was empty makes the
   * count NaN from then on, so `max(0.0, qtd)` gives 0: unless it raises,
   * the count is 0.
   */
  lemma {:induction false} EmptyQuantityCountsZero(entries: seq<Entry>, t: TickerCell, cutoff: Day, i: nat)
    requires i < |entries| && InScope(entries[i], t, cutoff) && entries[i].quantity.NotANumber?
    requires entries[i].kind.Some? && (Upper(entries[i].kind.value) in IncreasingKinds || Upper(entries[i].kind.value) in DecreasingKinds)
    ensures QuantityAsOf(entries, t, cutoff).Some? ==> QuantityAsOf(entries, t, cutoff) == Some(0.0)
  {
    NotANumberSticks(entries, t, cutoff, i);
  }

  lemma {:induction false} NotANumberSticks(entries: seq<Entry>, t: TickerCell, cutoff: Day, i: nat)
    requires i < |entries| && InScope(entries[i], t, cutoff) && entries[i].quantity.NotANumber?
    requires entries[i].kind.Some? && (Upper(entries[i].kind.value) in IncreasingKinds || Upper(entries[i].kind.value) in DecreasingKinds)
    ensures Holding(entries, t, cutoff).Some? ==> Holding(entries, t, cutoff).value.NotANumber?
  {
    var init := entries[..|entries| - 1];
    if i < |init| {
      assert init[i] == entries[i];
      NotANumberSticks(init, t, cutoff, i);
    }
  }

  /** The counting loop over the rows in scope. */
  method QuantityOnDate(entries: seq<Entry>, t: TickerCell, cutoff: Day) returns (q: Option<real>)
    ensures q == QuantityAsOf(entries, t, cutoff)
  {
    var qtd := Real(0.0);
    var i := 0;
    while i < |entries|
      invariant 0 <= i <= |entries|
      invariant Holding(entries[..i], t, cutoff) == Some(qtd)
    {
      var row := entries[i];
      assert entries[..i + 1][..i] == entries[..i];
      if InScope(row, t, cutoff) {
        if row.kind.None? {
          // `row['type'].upper()` raises here; the rows after it do not matter.
          HoldingStaysNone(entries, i + 1, t, cutoff);
          return None;
        }
        var k := Upper(row.kind.value);
        if k in IncreasingKinds {
          qtd := Plus(qtd, row.quantity);
        } else if k in DecreasingKinds {
          qtd := Minus(qtd, row.quantity);
        }
      }
      i := i + 1;
    }
    assert entries[..i] == entries;
    q := Some(if qtd.Real? && qtd.value > 0.0 then qtd.value else 0.0);
  }

  lemma {:induction false} HoldingStaysNone(entries: seq<Entry>, n: nat, t: TickerCell, cutoff: Day)
    requires n <= |entries| && Holding(entries[..n], t, cutoff).None?
    ensures Holding(entries, t, cutoff).None?
    decreases |entries| - n
  {
    if n < |entries| {
      assert entries[..n + 1][..n] == entries[..n];
      HoldingStaysNone(entries, n + 1, t, cutoff);
    } else {
      assert entries[..n] == entries;
    }
  }

  // ---------------------------------------------------------------------
  // The receipts of one ticker
  // ---------------------------------------------------------------------

  /** A row of the output; the year and month columns and the PT-BR number formatting are not modelled. */
  datatype Receipt = Receipt(ticker: string, exDate: Day, payment: Day, rate: real, quantity: real, total: real)

  /** The receipts gathered so far, and whether the loop was cut short by an exception. */
  datatype Scan = Scan(receipts: seq<Receipt>, failed: bool)

  /** The event loop: entitlement the day before the ex-date; payment estimated 15 days after it. */
  function ScanEvents(entries: seq<Entry>, name: string, events: seq<Event>): Scan {
    if events == [] then Scan([], false)
    else
      var prev := ScanEvents(entries, name, events[..|events| - 1]);
      var e := events[|events| - 1];
      var q := QuantityAsOf(entries, Named(name), e.day - 1);
      if prev.failed then prev
      else if q.None? then Scan(prev.receipts, true)
      else if q.value > 0.0 then Scan(prev.receipts + [MakeReceipt(name, e, q.value)], false)
      else prev
  }

  /** The dictionary appended for an event: entitlement the day before the ex-date, payment 15 days after it. */
  function MakeReceipt(name: string, e: Event, q: real): Receipt {
    Receipt(name, e.day, e.day + 15, e.rate, q, q * e.rate)
  }

  /** The tickers skipped, with blank cells skipped too (see the finding in README). */
  predicate Skipped(t: TickerCell) {
    t.Blank? || t.name in ["UNKNOWN", "nan", "None"] || Contains(t.name, "FUNDO")
  }

  /** The receipts one ticker adds: none when skipped, when the Yahoo call raises or when its series is empty. */
  function TickerReceipts(entries: seq<Entry>, t: TickerCell, yahoo: string -> Option<seq<Event>>): seq<Receipt> {
    if Skipped(t) then []
    else
      match yahoo(Normalize(t.name))
      case None => []
      case Some(events) => ScanEvents(entries, t.name, events).receipts
  }

  function Totals(receipts: seq<Receipt>): seq<real> {
    seq(|receipts|, i requires 0 <= i < |receipts| => receipts[i].total)
  }

  /** The loop over one ticker's events, with `total_ativo` and `count_recebimentos`. */
  method ProcessTicker(entries: seq<Entry>, name: string, events: seq<Event>) returns (receipts: seq<Receipt>, total: real, count: nat)
    ensures receipts == ScanEvents(entries, name, events).receipts
    ensures total == Sum(Totals(receipts)) && count == |receipts|
  {
    receipts := [];
    total := 0.0;
    count := 0;
    var i := 0;
    while i < |events|
      invariant 0 <= i <= |events|
      invariant ScanEvents(entries, name, events[..i]) == Scan(receipts, false)
      invariant total == Sum(Totals(receipts)) && count == |receipts|
    {
      var e := events[i];
      assert events[..i + 1][..i] == events[..i];
      var q := QuantityOnDate(entries, Named(name), e.day - 1);
      assert events[..i + 1][i] == e;
      if q.None? {
        ScanStaysFailed(entries, name, events, i + 1);
        return;
      }
      if q.value > 0.0 {
        var r := MakeReceipt(name, e, q.value);
        assert ScanEvents(entries, name, events[..i + 1]) == Scan(receipts + [r], false);
        assert Totals(receipts + [r]) == Totals(receipts) + [r.total];
        receipts := receipts + [r];
        total := total + r.total;
        count := count + 1;
      }
      i := i + 1;
    }
    assert events[..i] == events;
  }

  lemma {:induction false} ScanStaysFailed(entries: seq<Entry>, name: string, events: seq<Event>, n: nat)
    requires n <= |events| && ScanEvents(entries, name, events[..n]).failed
    ensures ScanEvents(entries, name, events) == ScanEvents(entries, name, events[..n])
    decreases |events| - n
  {
    if n < |events| {
      assert events[..n + 1][..n] == events[..n];
      ScanStaysFailed(entries, name, events, n + 1);
    } else {
      assert events[..n] == events;
    }
  }

  /** A receipt: a positive quantity held the day before the ex-date, total = quantity x rate, paid 15 days after. */
  predicate WellAttributed(entries: seq<Entry>, r: Receipt) {
    && QuantityAsOf(entries, Named(r.ticker), r.exDate - 1) == Some(r.quantity)
    && r.quantity > 0.0
    && r.total == r.quantity * r.rate
    && r.payment == r.exDate + 15
  }

  /** Every receipt stems from an event of the series and is well attributed. */
  lemma {:induction false} ScanSound(entries: seq<Entry>, name: string, events: seq<Event>)
    ensures forall r :: r in ScanEvents(entries, name, events).receipts ==>
      WellAttributed(entries, r) && r.ticker == name && exists e :: e in events && e.day == r.exDate && e.rate == r.rate
  {
    if events != [] {
      var init := events[..|events| - 1];
      var last := events[|events| - 1];
      ScanSound(entries, name, init);
      var prev := ScanEvents(entries, name, init).receipts;
      forall r | r in ScanEvents(entries, name, events).receipts
        ensures WellAttributed(entries, r) && r.ticker == name
        ensures exists e :: e in events && e.day == r.exDate && e.rate == r.rate
      {
        if r in prev {
          var e :| e in init && e.day == r.exDate && e.rate == r.rate;
          assert e in events;
        } else {
          assert last in events;
        }
      }
    }
  }

  /**
   * The loop is cut short exactly at the first event whose count raises:
   * the receipts are those of the events before it, and the events after
   * it are never looked at.
   */
  lemma {:induction false} ScanStopsAtFirstFailure(entries: seq<Entry>, name: string, events: seq<Event>, j: nat)
    requires j < |events| && QuantityAsOf(entries, Named(name), events[j].day - 1).None?
    requires forall i :: 0 <= i < j ==> QuantityAsOf(entries, Named(name), events[i].day - 1).Some?
    ensures !ScanEvents(entries, name, events[..j]).failed
    ensures ScanEvents(entries, name, events).failed
    ensures ScanEvents(entries, name, events).receipts == ScanEvents(entries, name, events[..j]).receipts
  {
    ScanPrefixSucceeds(entries, name, events, j);
    assert events[..j + 1][..j] == events[..j];
    assert events[..j + 1][j] == events[j];
    ScanStaysFailed(entries, name, events, j + 1);
  }

  lemma {:induction false} ScanPrefixSucceeds(entries: seq<Entry>, name: string, events: seq<Event>, j: nat)
    requires j <= |events|
    requires forall i :: 0 <= i < j ==> QuantityAsOf(entries, Named(name), events[i].day - 1).Some?
    ensures !ScanEvents(entries, name, events[..j]).failed
  {
    if j > 0 {
      assert events[..j][..j - 1] == events[..j - 1];
      ScanPrefixSucceeds(entries, name, events, j - 1);
    }
  }

  /** When no count raises, every event with a positive quantity yields a receipt. */
  lemma {:induction false} ScanComplete(entries: seq<Entry>, name: string, events: seq<Event>, e: Event)
    requires !ScanEvents(entries, name, events).failed
    requires e in events
    requires var q := QuantityAsOf(entries, Named(name), e.day - 1); q.Some? && q.value > 0.0
    ensures exists r :: r in ScanEvents(entries, name, events).receipts && r.exDate == e.day && r.rate == e.rate
  {
    var init := events[..|events| - 1];
    var last := events[|events| - 1];
    var prev := ScanEvents(entries, name, init);
    assert !prev.failed;
    if e == last {
      var q := QuantityAsOf(entries, Named(name), e.day - 1).value;
      var r := MakeReceipt(name, e, q);
      assert QuantityAsOf(entries, Named(name), last.day - 1) == Some(q);
      assert ScanEvents(entries, name, events) == Scan(prev.receipts + [r], false);
      assert r in ScanEvents(entries, name, events).receipts;
    } else {
      assert events == init + [last];
      assert e in init;
      ScanComplete(entries, name, init, e);
      var r :| r in prev.receipts && r.exDate == e.day && r.rate == e.rate;
      assert forall x :: x in prev.receipts ==> x in ScanEvents(entries, name, events).receipts;
    }
  }

  // ---------------------------------------------------------------------
  // main
  // ---------------------------------------------------------------------

  function AllReceipts(entries: seq<Entry>, tickers: seq<TickerCell>, yahoo: string -> Option<seq<Event>>): seq<Receipt> {
    if tickers == [] then []
    else AllReceipts(entries, tickers[..|tickers| - 1], yahoo) + TickerReceipts(entries, tickers[|tickers| - 1], yahoo)
  }

  function Tickers(entries: seq<Entry>): seq<TickerCell> {
    Unique(seq(|entries|, i requires 0 <= i < |entries| => entries[i].ticker))
  }

  /** `sort_values('Data Ex', ascending=False)`: the key is the negated ex-date. */
  function NewestFirst(r: Receipt): int {
    -r.exDate
  }

  /**
   * What the run writes: nothing when loading fails, when the ticker loop
   * raises on a blank cell, or when no receipt is found; otherwise the
   * receipts newest first.
   */
  function HistoricalOutput(raw: seq<RawEntry>, yahoo: string -> Option<seq<Event>>): Option<seq<Receipt>> {
    match Load(raw)
    case None => None
    case Some(entries) =>
      match AllReceiptsAsWritten(entries, Tickers(entries), yahoo)
      case None => None
      case Some(all) => if all == [] then None else Some(SortBy(all, NewestFirst))
  }

  /** main(): load, gather the receipts ticker by ticker, sort, write. */
  method CalculateHistory(raw: seq<RawEntry>, yahoo: string -> Option<seq<Event>>) returns (out: Option<seq<Receipt>>)
    ensures out == HistoricalOutput(raw, yahoo)
  {
    var loaded := Load(raw);
    if loaded.None? {
      return None;
    }
    var all := GatherReceipts(loaded.value, yahoo);
    if all.None? || all.value == [] {
      return None;
    }
    out := Some(SortBy(all.value, NewestFirst));
  }

  lemma AllReceiptsStep(entries: seq<Entry>, tickers: seq<TickerCell>, yahoo: string -> Option<seq<Event>>, k: nat)
    requires k < |tickers|
    ensures AllReceipts(entries, tickers[..k + 1], yahoo) == AllReceipts(entries, tickers[..k], yahoo) + TickerReceipts(entries, tickers[k], yahoo)
    ensures AllReceiptsAsWritten(entries, tickers[..k + 1], yahoo)
            == match AllReceiptsAsWritten(entries, tickers[..k], yahoo)
               case None => None
               case Some(prev) => if tickers[k].Blank? then None else Some(prev + TickerReceipts(entries, tickers[k], yahoo))
  {
    assert tickers[..k + 1][..k] == tickers[..k];
  }

  /**
   * One pass of the loop over `tickers_unicos`: lines 69-126 for one ticker.
   * A blank cell raises TypeError at the skip test (None).
   */
  method TickerStep(entries: seq<Entry>, t: TickerCell, yahoo: string -> Option<seq<Event>>) returns (receipts: Option<seq<Receipt>>)
    ensures receipts.None? <==> t.Blank?
    ensures receipts.Some? ==> receipts.value == TickerReceipts(entries, t, yahoo)
  {
    var skip := SkipAsWritten(t);
    if skip.None? {
      return None;
    }
    if skip.value {
      return Some([]);
    }
    var divs := yahoo(Normalize(t.name));
    if divs.None? || |divs.value| == 0 {
      return Some([]);
    }
    var found, total, count := ProcessTicker(entries, t.name, divs.value);
    receipts := Some(found);
  }

  /** The loop over `tickers_unicos`, appending to `historico_recebimentos`; it ends the run at the first blank cell. */
  method GatherReceipts(entries: seq<Entry>, yahoo: string -> Option<seq<Event>>) returns (all: Option<seq<Receipt>>)
    ensures all == AllReceiptsAsWritten(entries, Tickers(entries), yahoo)
  {
    var tickers := Tickers(entries);
    var acc := [];
    var k := 0;
    while k < |tickers|
      invariant 0 <= k <= |tickers|
      invariant AllReceiptsAsWritten(entries, tickers[..k], yahoo) == Some(acc)
    {
      AllReceiptsStep(entries, tickers, yahoo, k);
      var receipts := TickerStep(entries, tickers[k], yahoo);
      if receipts.None? {
        BlankTickerLosesEverything(entries, tickers, yahoo, k);
        return None;
      }
      acc := acc + receipts.value;
      k := k + 1;
    }
    assert tickers[..k] == tickers;
    all := Some(acc);
  }

  /** Every receipt of every ticker is well attributed. */
  lemma {:induction false} AllReceiptsWellAttributed(entries: seq<Entry>, tickers: seq<TickerCell>, yahoo: string -> Option<seq<Event>>)
    ensures forall r :: r in AllReceipts(entries, tickers, yahoo) ==> WellAttributed(entries, r)
  {
    if tickers != [] {
      AllReceiptsWellAttributed(entries, tickers[..|tickers| - 1], yahoo);
      var t := tickers[|tickers| - 1];
      if !Skipped(t) && yahoo(Normalize(t.name)).Some? {
        ScanSound(entries, t.name, yahoo(Normalize(t.name)).value);
      }
    }
  }

  /** The file written is sorted newest first, holds every receipt found, and each one is well attributed. */
  lemma OutputNewestFirst(raw: seq<RawEntry>, yahoo: string -> Option<seq<Event>>)
    ensures var out := HistoricalOutput(raw, yahoo);
            out.Some? ==>
              var entries := Load(raw).value;
              && SortedBy(out.value, NewestFirst)
              && multiset(out.value) == multiset(AllReceipts(entries, Tickers(entries), yahoo))
              && forall r :: r in out.value ==> WellAttributed(entries, r)
  {
    var out := HistoricalOutput(raw, yahoo);
    if out.Some? {
      var entries := Load(raw).value;
      AsWrittenFoundAll(entries, Tickers(entries), yahoo);
      AllReceiptsWellAttributed(entries, Tickers(entries), yahoo);
      forall r | r in out.value ensures WellAttributed(entries, r) {
        assert r in multiset(out.value);
      }
    }
  }

  /** The receipts of every ticker that is not skipped reach the output. */
  lemma {:induction false} NamedTickersKept(entries: seq<Entry>, tickers: seq<TickerCell>, yahoo: string -> Option<seq<Event>>, k: nat)
    requires k < |tickers|
    ensures forall r :: r in TickerReceipts(entries, tickers[k], yahoo) ==> r in AllReceipts(entries, tickers, yahoo)
  {
    var init := tickers[..|tickers| - 1];
    if k < |init| {
      assert init[k] == tickers[k];
      NamedTickersKept(entries, init, yahoo, k);
    }
  }

  // ---------------------------------------------------------------------
  // The skip test as written
  // ---------------------------------------------------------------------

  /**
   * The skip test as written: a blank ticker is NaN, which is not one of the
   * three names, and `"FUNDO" in NaN` raises TypeError (None here).
   */
  function SkipAsWritten(t: TickerCell): Option<bool> {
    match t
    case Blank => None
    case Named(n) => Some(n in ["UNKNOWN", "nan", "None"] || Contains(n, "FUNDO"))
  }

  /** The ticker loop as written: the TypeError is outside every try, so the whole run ends without output. */
  function AllReceiptsAsWritten(entries: seq<Entry>, tickers: seq<TickerCell>, yahoo: string -> Option<seq<Event>>): Option<seq<Receipt>> {
    if tickers == [] then Some([])
    else
      match AllReceiptsAsWritten(entries, tickers[..|tickers| - 1], yahoo)
      case None => None
      case Some(prev) =>
        match SkipAsWritten(tickers[|tickers| - 1])
        case None => None
        case Some(_) => Some(prev + TickerReceipts(entries, tickers[|tickers| - 1], yahoo))
  }

  /** One blank ticker cell anywhere in the ledger loses the receipts of every ticker. */
  lemma {:induction false} BlankTickerLosesEverything(entries: seq<Entry>, tickers: seq<TickerCell>, yahoo: string -> Option<seq<Event>>, k: nat)
    requires k < |tickers| && tickers[k].Blank?
    ensures AllReceiptsAsWritten(entries, tickers, yahoo).None?
  {
    var init := tickers[..|tickers| - 1];
    if k < |init| {
      assert init[k] == tickers[k];
      BlankTickerLosesEverything(entries, init, yahoo, k);
    }
  }

  /** Without blank tickers the test as written agrees with the corrected one. */
  lemma {:induction false} AsWrittenAgreesWithoutBlanks(entries: seq<Entry>, tickers: seq<TickerCell>, yahoo: string -> Option<seq<Event>>)
    requires forall k :: 0 <= k < |tickers| ==> tickers[k].Named?
    ensures AllReceiptsAsWritten(entries, tickers, yahoo) == Some(AllReceipts(entries, tickers, yahoo))
  {
    if tickers != [] {
      AsWrittenAgreesWithoutBlanks(entries, tickers[..|tickers| - 1], yahoo);
    }
  }

  /** When the loop as written finishes, it has gathered exactly the receipts of the corrected loop. */
  lemma {:induction false} AsWrittenFoundAll(entries: seq<Entry>, tickers: seq<TickerCell>, yahoo: string -> Option<seq<Event>>)
    ensures AllReceiptsAsWritten(entries, tickers, yahoo).Some? ==> AllReceiptsAsWritten(entries, tickers, yahoo).value == AllReceipts(entries, tickers, yahoo)
  {
    if tickers != [] {
      AsWrittenFoundAll(entries, tickers[..|tickers| - 1], yahoo);
    }
  }

  lemma TickerListed(entries: seq<Entry>, i: nat)
    requires i < |entries|
    ensures entries[i].ticker in Tickers(entries)
  {
    var cells := seq(|entries|, j requires 0 <= j < |entries| => entries[j].ticker);
    assert cells[i] == entries[i].ticker;
  }

  lemma TickerFromLedger(entries: seq<Entry>, k: nat)
    requires k < |Tickers(entries)|
    ensures exists i :: 0 <= i < |entries| && entries[i].ticker == Tickers(entries)[k]
  {
    var cells := seq(|entries|, j requires 0 <= j < |entries| => entries[j].ticker);
    assert Tickers(entries)[k] in cells;
  }

  /** A ledger row with an empty ticker cell leaves the run without output, whatever the other rows hold. */
  lemma BlankCellWritesNothing(raw: seq<RawEntry>, yahoo: string -> Option<seq<Event>>, i: nat)
    requires Load(raw).Some? && i < |Load(raw).value| && Load(raw).value[i].ticker.Blank?
    ensures HistoricalOutput(raw, yahoo).None?
  {
    var entries := Load(raw).value;
    TickerListed(entries, i);
    var tickers := Tickers(entries);
    var k :| 0 <= k < |tickers| && tickers[k] == Blank;
    BlankTickerLosesEverything(entries, tickers, yahoo, k);
  }

  /** The corrected run: blank cells are skipped like the named exclusions. */
  function CorrectedOutput(raw: seq<RawEntry>, yahoo: string -> Option<seq<Event>>): Option<seq<Receipt>> {
    match Load(raw)
    case None => None
    case Some(entries) =>
      var all := AllReceipts(entries, Tickers(entries), yahoo);
      if all == [] then None else Some(SortBy(all, NewestFirst))
  }

  /** Without blank ticker cells the run as written and the corrected run write the same file. */
  lemma CorrectedAgreesWithoutBlanks(raw: seq<RawEntry>, yahoo: string -> Option<seq<Event>>)
    requires Load(raw).Some? && forall i :: 0 <= i < |Load(raw).value| ==> Load(raw).value[i].ticker.Named?
    ensures HistoricalOutput(raw, yahoo) == CorrectedOutput(raw, yahoo)
  {
    var entries := Load(raw).value;
    var tickers := Tickers(entries);
    forall k | 0 <= k < |tickers| ensures tickers[k].Named? {
      TickerFromLedger(entries, k);
    }
    AsWrittenAgreesWithoutBlanks(entries, tickers, yahoo);
  }

  /** The corrected run with a blank cell still writes the receipts of every other ticker. */
  lemma CorrectedKeepsOthers(raw: seq<RawEntry>, yahoo: string -> Option<seq<Event>>, k: nat, r: Receipt)
    requires Load(raw).Some? && k < |Tickers(Load(raw).value)|
    requires r in TickerReceipts(Load(raw).value, Tickers(Load(raw).value)[k], yahoo)
    ensures CorrectedOutput(raw, yahoo).Some? && r in CorrectedOutput(raw, yahoo).value
  {
    var entries := Load(raw).value;
    var all := AllReceipts(entries, Tickers(entries), yahoo);
    NamedTickersKept(entries, Tickers(entries), yahoo, k);
    assert r in all;
    SortKeepsMembers(all);
    assert CorrectedOutput(raw, yahoo) == Some(SortBy(all, NewestFirst));
  }

  lemma SortKeepsMembers(all: seq<Receipt>)
    ensures forall r :: r in all ==> r in SortBy(all, NewestFirst)
  {
    forall r | r in all ensures r in SortBy(all, NewestFirst) {
      assert r in multiset(all);
    }
  }

  /** Corrected: a blank ticker is skipped, and no ticker's receipts are lost for it. */
  lemma BlankTickerSkipped(entries: seq<Entry>, tickers: seq<TickerCell>, yahoo: string -> Option<seq<Event>>, k: nat)
    requires k < |tickers| && tickers[k].Blank?
    ensures TickerReceipts(entries, tickers[k], yahoo) == []
    ensures forall j, r :: 0 <= j < |tickers| && r in TickerReceipts(entries, tickers[j], yahoo) ==> r in AllReceipts(entries, tickers, yahoo)
  {
    forall j, r | 0 <= j < |tickers| && r in TickerReceipts(entries, tickers[j], yahoo)
      ensures r in AllReceipts(entries, tickers, yahoo)
    {
      NamedTickersKept(entries, tickers, yahoo, j);
    }
  }
}
