/**
 * update_market_data.py: one closing price per asset of the `assets` sheet.
 * Quoted assets come from Yahoo Finance, funds from the CVM daily report
 * (matched by CNPJ), Tesouro Direto bonds from the Treasury price file;
 * every ticker still without a price gets the sentinel 1.0, and the
 * `market_data` sheet receives one row per key with NaN and infinities
 * written as 0.0. The price dict is a `Dict` filled section by section.
 */
module MarketData {
  import opened Common
  import opened Text
  import opened Tables
  import opened Quotas

  /** A row of the `assets` sheet: `ticker`, `type` and `isin_cnpj`. */
  datatype Asset = Asset(ticker: string, kind: string, cnpj: string)

  const YahooKinds: set<string> := {"ACAO_BR", "FII", "BDR", "ETF_BR", "ETF_US"}

  /** 1.0, the price of a ticker no source priced. */
  const Sentinel: Float := Finite(1.0)

  /** `df_assets[df_assets['type'].isin(kinds)]['ticker'].tolist()` */
  function TickersOf(assets: seq<Asset>, kinds: set<string>): seq<string> {
    if assets == [] then []
    else
      var init := assets[..|assets| - 1];
      var a := assets[|assets| - 1];
      if a.kind in kinds then TickersOf(init, kinds) + [a.ticker] else TickersOf(init, kinds)
  }

  /** The list holds the ticker of every asset of those kinds and nothing else. */
  lemma {:induction false} TickersOfSpec(assets: seq<Asset>, kinds: set<string>, k: string)
    ensures k in TickersOf(assets, kinds) <==> exists i :: 0 <= i < |assets| && assets[i].kind in kinds && assets[i].ticker == k
  {
    if assets != [] {
      var init := assets[..|assets| - 1];
      TickersOfSpec(init, kinds, k);
      assert forall i :: 0 <= i < |init| ==> init[i] == assets[i];
      if exists i :: 0 <= i < |assets| && assets[i].kind in kinds && assets[i].ticker == k {
        var i :| 0 <= i < |assets| && assets[i].kind in kinds && assets[i].ticker == k;
        if i < |init| {
          assert init[i].kind in kinds && init[i].ticker == k;
        }
      }
    }
  }

  // ---------------------------------------------------------------------
  // Part A: Yahoo Finance
  // ---------------------------------------------------------------------

  /** The last close of one ticker in the download, or the exception reading it raised. */
  datatype Extraction = Raised | Close(value: Float)

  /** What lines 43-45 store for one ticker: 0.0 when reading raised, nothing for a null close. */
  function YahooValue(x: Extraction): Option<Float> {
    match x
    case Raised => Some(Finite(0.0))
    case Close(v) => if v.NaN? then None else Some(v)
  }

  /** The assignments of the loop over the Yahoo tickers. */
  function YahooPairs(tickers: seq<string>, closes: string -> Extraction): seq<(string, Float)> {
    if tickers == [] then []
    else
      var t := tickers[|tickers| - 1];
      var prev := YahooPairs(tickers[..|tickers| - 1], closes);
      match YahooValue(closes(t))
      case None => prev
      case Some(v) => prev + [(t, v)]
  }

  /** The Yahoo part; `download` is None when `yf.download` itself raised. */
  function YahooSection(t: Table<Float>, assets: seq<Asset>, download: Option<string -> Extraction>): (r: Table<Float>)
    requires Valid(t)
    ensures Valid(r)
  {
    if download.None? then t else AssignAll(t, YahooPairs(TickersOf(assets, YahooKinds), download.value))
  }

  lemma {:induction false} YahooPairsValue(tickers: seq<string>, closes: string -> Extraction, k: string)
    ensures LastValue(YahooPairs(tickers, closes), k) == if k in tickers then YahooValue(closes(k)) else None
  {
    if tickers != [] {
      var init := tickers[..|tickers| - 1];
      YahooPairsValue(init, closes, k);
      assert tickers == init + [tickers[|tickers| - 1]];
      assert k in tickers <==> k in init || k == tickers[|tickers| - 1];
      var prev := YahooPairs(init, closes);
      match YahooValue(closes(tickers[|tickers| - 1]))
      case None =>
      case Some(v) =>
        assert (prev + [(tickers[|tickers| - 1], v)])[..|prev|] == prev;
    }
  }

  /**
   * A Yahoo ticker is priced 0.0 when reading its close raised, at its close
   * when that is not null, and left as it was when the close is null; any
   * other key, and every key when the download raised, is left as it was.
   */
  lemma YahooPrices(t: Table<Float>, assets: seq<Asset>, download: Option<string -> Extraction>, k: string)
    requires Valid(t)
    ensures var r := YahooSection(t, assets, download);
      if download.Some? && k in TickersOf(assets, YahooKinds) && YahooValue(download.value(k)).Some? then
        k in r.entries && r.entries[k] == YahooValue(download.value(k)).value
      else
        (k in r.entries <==> k in t.entries) && (k in t.entries ==> r.entries[k] == t.entries[k])
    ensures download.Some? && k in TickersOf(assets, YahooKinds) && download.value(k) == Raised ==>
      YahooSection(t, assets, download).entries[k] == Finite(0.0)
  {
    if download.Some? {
      var tickers := TickersOf(assets, YahooKinds);
      YahooPairsValue(tickers, download.value, k);
      AssignAllSpec(t, YahooPairs(tickers, download.value), k);
    }
  }

  /** One more ticker adds its assignment, if any, after those of the tickers before it. */
  lemma YahooStep(t: Table<Float>, tickers: seq<string>, closes: string -> Extraction, i: nat)
    requires Valid(t) && i < |tickers|
    ensures var before := AssignAll(t, YahooPairs(tickers[..i], closes));
      AssignAll(t, YahooPairs(tickers[..i + 1], closes)) ==
        match YahooValue(closes(tickers[i]))
        case None => before
        case Some(v) => Assign(before, tickers[i], v)
  {
    assert tickers[..i + 1][..i] == tickers[..i];
    var prev := YahooPairs(tickers[..i], closes);
    match YahooValue(closes(tickers[i]))
    case None =>
    case Some(v) =>
      assert (prev + [(tickers[i], v)])[..|prev|] == prev;
  }

  /** Lines 42-45 for one ticker. */
  method YahooTicker(d: Dict<Float>, t: string, close: Extraction)
    modifies d
    requires Valid(d.State())
    ensures d.State() == match YahooValue(close)
      case None => old(d.State())
      case Some(v) => Assign(old(d.State()), t, v)
  {
    match close {
      case Raised =>
        d.Put(t, Finite(0.0));
      case Close(v) =>
        if !v.NaN? {
          d.Put(t, v);
        }
    }
  }

  method FillYahoo(d: Dict<Float>, assets: seq<Asset>, download: Option<string -> Extraction>)
    modifies d
    requires Valid(d.State())
    ensures d.State() == YahooSection(old(d.State()), assets, download)
  {
    var tickers := TickersOf(assets, YahooKinds);
    if |tickers| > 0 && download.Some? {
      var closes := download.value;
      var i := 0;
      while i < |tickers|
        invariant 0 <= i <= |tickers|
        invariant d.State() == AssignAll(old(d.State()), YahooPairs(tickers[..i], closes))
      {
        YahooStep(old(d.State()), tickers, closes, i);
        YahooTicker(d, tickers[i], closes(tickers[i]));
        i := i + 1;
      }
      assert tickers[..i] == tickers;
    }
  }

  // ---------------------------------------------------------------------
  // Part B: funds from the CVM daily report
  // ---------------------------------------------------------------------

  /** Line 53: the digits of the stripped `isin_cnpj` cell, left-padded with zeros to 14. */
  function FundKey(raw: string): string {
    ZFill(DigitsOf(Strip(raw)), 14)
  }

  /** Line 54 keeps a fund only when its key has exactly 14 characters. */
  predicate Registered(raw: string) {
    |FundKey(raw)| == 14
  }

  /** A fund is registered exactly when its cell holds at most 14 digits; its key is then those digits after leading zeros. */
  lemma RegisteredIff(raw: string)
    ensures Registered(raw) <==> |DigitsOf(Strip(raw))| <= 14
    ensures Registered(raw) ==> AllDigits(FundKey(raw)) && EndsWith(FundKey(raw), DigitsOf(Strip(raw)))
    ensures Registered(raw) ==> forall i :: 0 <= i < 14 - |DigitsOf(Strip(raw))| ==> FundKey(raw)[i] == '0'
  {
    ZFillDigits(DigitsOf(Strip(raw)), 14);
  }

  /** The assignments of the loop building `mapa_cnpjs`: key to ticker. */
  function FundPairs(assets: seq<Asset>): seq<(string, string)> {
    if assets == [] then []
    else
      var init := assets[..|assets| - 1];
      var a := assets[|assets| - 1];
      if a.kind == "FUNDO" && Registered(a.cnpj) then FundPairs(init) + [(FundKey(a.cnpj), a.ticker)] else FundPairs(init)
  }

  /** `mapa_cnpjs` */
  function FundTable(assets: seq<Asset>): (r: Table<string>)
    ensures Valid(r)
  {
    AssignAll(EmptyTable(), FundPairs(assets))
  }

  lemma FundTableStep(assets: seq<Asset>, i: nat)
    requires i < |assets|
    ensures var a := assets[i];
      FundTable(assets[..i + 1]) ==
        if a.kind == "FUNDO" && Registered(a.cnpj) then Assign(FundTable(assets[..i]), FundKey(a.cnpj), a.ticker)
        else FundTable(assets[..i])
  {
    assert assets[..i + 1][..i] == assets[..i];
    var a := assets[i];
    var before := FundPairs(assets[..i]);
    if a.kind == "FUNDO" && Registered(a.cnpj) {
      assert (before + [(FundKey(a.cnpj), a.ticker)])[..|before|] == before;
    }
  }

  /** Lines 52-54 for one asset. */
  method AddFund(m: Dict<string>, a: Asset)
    modifies m
    requires Valid(m.State())
    ensures m.State() == if a.kind == "FUNDO" && Registered(a.cnpj) then Assign(old(m.State()), FundKey(a.cnpj), a.ticker) else old(m.State())
  {
    var key := FundKey(a.cnpj);
    if a.kind == "FUNDO" && |key| == 14 {
      m.Put(key, a.ticker);
    }
  }

  method BuildFundMap(assets: seq<Asset>) returns (m: Dict<string>)
    ensures fresh(m)
    ensures m.State() == FundTable(assets)
  {
    m := new Dict<string>();
    var i := 0;
    while i < |assets|
      invariant 0 <= i <= |assets|
      invariant m.State() == FundTable(assets[..i])
    {
      FundTableStep(assets, i);
      AddFund(m, assets[i]);
      i := i + 1;
    }
    assert assets[..i] == assets;
  }

  /** Line 65: the report's CNPJ_FUNDO reduced to digits and zero-filled to 14. */
  function ReportKey(raw: string): string {
    ZFill(DigitsOf(raw), 14)
  }

  /** Lines 68-69: each registered fund the report quotes gets the quota of its latest row. */
  function CvmPairs(funds: seq<(string, string)>, quotas: map<string, QuotaRow>): seq<(string, Float)> {
    if funds == [] then []
    else
      var init := funds[..|funds| - 1];
      var f := funds[|funds| - 1];
      var prev := CvmPairs(init, quotas);
      if f.0 in quotas then prev + [(f.1, quotas[f.0].quota)] else prev
  }

  /** Part B: with at least one registered fund, the first of four monthly reports that loads supplies the quotas. */
  function CvmSection(t: Table<Float>, funds: Table<string>, reports: nat -> Option<seq<QuotaRow>>): (r: Table<Float>)
    requires Valid(t) && Valid(funds)
    ensures Valid(r)
  {
    if funds.keys == [] then t
    else
      match FirstLoad(reports, 0, 4)
      case None => t
      case Some(rows) => AssignAll(t, CvmPairs(Items(funds), Latest(rows, ReportKey)))
  }

  lemma CvmPairsStep(items: seq<(string, string)>, quotas: map<string, QuotaRow>, t: Table<Float>, j: nat)
    requires Valid(t) && j < |items|
    ensures var (cnpj, ticker) := items[j];
      AssignAll(t, CvmPairs(items[..j + 1], quotas)) ==
        if cnpj in quotas then Assign(AssignAll(t, CvmPairs(items[..j], quotas)), ticker, quotas[cnpj].quota)
        else AssignAll(t, CvmPairs(items[..j], quotas))
  {
    assert items[..j + 1][..j] == items[..j];
    var before := CvmPairs(items[..j], quotas);
    var (cnpj, ticker) := items[j];
    if cnpj in quotas {
      assert (before + [(ticker, quotas[cnpj].quota)])[..|before|] == before;
    }
  }

  /** Lines 66-69: every mapped fund with a row in the report gets its quota. */
  method PriceFunds(d: Dict<Float>, items: seq<(string, string)>, quotas: map<string, QuotaRow>)
    modifies d
    requires Valid(d.State())
    ensures d.State() == AssignAll(old(d.State()), CvmPairs(items, quotas))
  {
    var j := 0;
    while j < |items|
      invariant 0 <= j <= |items|
      invariant d.State() == AssignAll(old(d.State()), CvmPairs(items[..j], quotas))
    {
      CvmPairsStep(items, quotas, old(d.State()), j);
      var cnpj := items[j].0;
      if cnpj in quotas {
        d.Put(items[j].1, quotas[cnpj].quota);
      }
      j := j + 1;
    }
    assert items[..j] == items;
  }

  method FillCvm(d: Dict<Float>, funds: Table<string>, reports: nat -> Option<seq<QuotaRow>>)
    modifies d
    requires Valid(d.State()) && Valid(funds)
    ensures d.State() == CvmSection(old(d.State()), funds, reports)
  {
    if |funds.keys| > 0 {
      var i := 0;
      while i < 4
        invariant 0 <= i <= 4
        invariant FirstLoad(reports, i, 4) == FirstLoad(reports, 0, 4)
        invariant d.State() == old(d.State())
      {
        match reports(i) {
          case None =>
            i := i + 1;
          case Some(rows) =>
            PriceFunds(d, Items(funds), Latest(rows, ReportKey));
            return;
        }
      }
    }
  }

  lemma {:induction false} CvmPairsValue(funds: seq<(string, string)>, quotas: map<string, QuotaRow>, key: string, ticker: string)
    requires (key, ticker) in funds && key in quotas
    requires forall j :: 0 <= j < |funds| && funds[j].1 == ticker ==> funds[j].0 == key
    ensures LastValue(CvmPairs(funds, quotas), ticker) == Some(quotas[key].quota)
  {
    var init := funds[..|funds| - 1];
    var f := funds[|funds| - 1];
    assert funds == init + [f];
    var prev := CvmPairs(init, quotas);
    if f.0 in quotas {
      assert (prev + [(f.1, quotas[f.0].quota)])[..|prev|] == prev;
    }
    if f.1 != ticker {
      assert (key, ticker) in init;
      CvmPairsValue(init, quotas, key, ticker);
    }
  }

  /**
   * When a report loads, the ticker of a registered fund the report quotes
   * gets the quota of the latest row of the fund's key (LatestIsLatest);
   * the ticker must be registered under that one key.
   */
  lemma CvmPrices(t: Table<Float>, funds: Table<string>, reports: nat -> Option<seq<QuotaRow>>, key: string, rows: seq<QuotaRow>)
    requires Valid(t) && Valid(funds)
    requires key in funds.entries
    requires forall k :: k in funds.entries && funds.entries[k] == funds.entries[key] ==> k == key
    requires FirstLoad(reports, 0, 4) == Some(rows)
    requires key in Latest(rows, ReportKey)
    ensures var r := CvmSection(t, funds, reports);
      funds.entries[key] in r.entries && r.entries[funds.entries[key]] == Latest(rows, ReportKey)[key].quota
  {
    var ticker := funds.entries[key];
    var items := Items(funds);
    ItemsOnePerKey(funds);
    var i :| 0 <= i < |items| && items[i] == (key, ticker);
    CvmPairsValue(items, Latest(rows, ReportKey), key, ticker);
    AssignAllSpec(t, CvmPairs(items, Latest(rows, ReportKey)), ticker);
  }

  /** When no report loads, or no fund is registered, the CVM part changes nothing. */
  lemma CvmUnloaded(t: Table<Float>, funds: Table<string>, reports: nat -> Option<seq<QuotaRow>>)
    requires Valid(t) && Valid(funds)
    requires funds.keys == [] || forall i :: 0 <= i < 4 ==> reports(i).None?
    ensures CvmSection(t, funds, reports) == t
  {
    FirstLoadSpec(reports, 0, 4);
  }

  /** The index of the asset a pair of `FundPairs` comes from. */
  lemma {:induction false} FundPairSource(assets: seq<Asset>, p: (string, string)) returns (i: nat)
    requires p in FundPairs(assets)
    ensures i < |assets| && assets[i].kind == "FUNDO" && p == (FundKey(assets[i].cnpj), assets[i].ticker)
  {
    var init := assets[..|assets| - 1];
    if p in FundPairs(init) {
      i := FundPairSource(init, p);
      assert assets[i] == init[i];
    } else {
      i := |assets| - 1;
    }
  }

  lemma FundPairsFromFunds(assets: seq<Asset>, p: (string, string))
    requires p in FundPairs(assets)
    ensures exists i :: 0 <= i < |assets| && assets[i].kind == "FUNDO" && p == (FundKey(assets[i].cnpj), assets[i].ticker)
  {
    var i := FundPairSource(assets, p);
  }

  /** Every value of `mapa_cnpjs` is the ticker of a FUNDO asset. */
  lemma FundTableTickers(assets: seq<Asset>, key: string)
    requires key in FundTable(assets).entries
    ensures exists i :: 0 <= i < |assets| && assets[i].kind == "FUNDO" && assets[i].ticker == FundTable(assets).entries[key]
  {
    AssignAllSpec(EmptyTable(), FundPairs(assets), key);
    LastValueSome(FundPairs(assets), key);
    var j :| 0 <= j < |FundPairs(assets)| && FundPairs(assets)[j] == (key, LastValue(FundPairs(assets), key).value);
    FundPairsFromFunds(assets, FundPairs(assets)[j]);
  }

  /** The pair line 54 adds for an asset, if any. */
  function FundEntry(a: Asset): Option<(string, string)> {
    if a.kind == "FUNDO" && Registered(a.cnpj) then Some((FundKey(a.cnpj), a.ticker)) else None
  }

  /** The asset lists `key` in the fund table: a FUNDO whose registered CNPJ reads as `key`. */
  predicate FundListed(a: Asset, key: string) {
    Hits(FundEntry, a, key)
  }

  lemma {:induction false} FundPairsCollect(assets: seq<Asset>)
    ensures FundPairs(assets) == Collect(assets, FundEntry)
  {
    if assets != [] {
      FundPairsCollect(assets[..|assets| - 1]);
    }
  }

  /**
   * Line 54 in full: a key is in the fund table exactly when some asset
   * lists it, and it then maps to the ticker of the last asset that does.
   */
  lemma FundTableComplete(assets: seq<Asset>, key: string)
    ensures key in FundTable(assets).entries <==> exists i :: 0 <= i < |assets| && FundListed(assets[i], key)
    ensures key in FundTable(assets).entries ==>
      exists j :: && 0 <= j < |assets| && FundListed(assets[j], key) && FundTable(assets).entries[key] == assets[j].ticker
                  && forall h :: j < h < |assets| ==> !FundListed(assets[h], key)
  {
    FundPairsCollect(assets);
    AssignAllSpec(EmptyTable(), FundPairs(assets), key);
    CollectKeys(assets, FundEntry, key);
    if key in FundTable(assets).entries {
      CollectLast(assets, FundEntry, key);
    }
  }

  lemma {:induction false} CvmPairsOther(funds: seq<(string, string)>, quotas: map<string, QuotaRow>, k: string)
    requires forall j :: 0 <= j < |funds| ==> funds[j].1 != k
    ensures LastValue(CvmPairs(funds, quotas), k) == None
  {
    if funds != [] {
      var init := funds[..|funds| - 1];
      var f := funds[|funds| - 1];
      var prev := CvmPairs(init, quotas);
      CvmPairsOther(init, quotas, k);
      if f.0 in quotas {
        assert (prev + [(f.1, quotas[f.0].quota)])[..|prev|] == prev;
      }
    }
  }

  /** The CVM part writes only tickers of registered funds. */
  lemma CvmOnlyFundTickers(t: Table<Float>, funds: Table<string>, reports: nat -> Option<seq<QuotaRow>>, k: string)
    requires Valid(t) && Valid(funds)
    requires forall key :: key in funds.entries ==> funds.entries[key] != k
    ensures var r := CvmSection(t, funds, reports);
      (k in r.entries <==> k in t.entries) && (k in t.entries ==> r.entries[k] == t.entries[k])
  {
    if funds.keys != [] && FirstLoad(reports, 0, 4).Some? {
      var quotas := Latest(FirstLoad(reports, 0, 4).value, ReportKey);
      ItemsOnePerKey(funds);
      CvmPairsOther(Items(funds), quotas, k);
      AssignAllSpec(t, CvmPairs(Items(funds), quotas), k);
    }
  }

  // ---------------------------------------------------------------------
  // Part D: Tesouro Direto
  // ---------------------------------------------------------------------

  /** A row of the Treasury price file: Data Base, Tipo Titulo, the year of Data Vencimento, Preco Unitario Dia. */
  datatype BondRow = BondRow(base: Day, kind: Option<string>, maturityYear: int, price: Float)

  /** `df_td['Data Base'].max()` */
  function MaxBase(rows: seq<BondRow>): (m: Day)
    requires rows != []
    ensures forall i :: 0 <= i < |rows| ==> rows[i].base <= m
    ensures exists i :: 0 <= i < |rows| && rows[i].base == m
  {
    if |rows| == 1 then rows[0].base
    else
      var m := MaxBase(rows[1..]);
      assert forall i :: 1 <= i < |rows| ==> rows[i] == rows[1..][i - 1];
      if rows[0].base >= m then rows[0].base else m
  }

  /** Lines 91-92: an IPCA bond maturing in 2029 (a missing Tipo Titulo never matches). */
  predicate IsTarget(r: BondRow) {
    r.kind.Some? && Contains(r.kind.value, "IPCA") && r.maturityYear == 2029
  }

  /** `match.iloc[0]['Preco Unitario Dia']` among the rows of the given base date. */
  function FirstTarget(rows: seq<BondRow>, base: Day): Option<Float> {
    if rows == [] then None
    else if rows[0].base == base && IsTarget(rows[0]) then Some(rows[0].price)
    else FirstTarget(rows[1..], base)
  }

  function BondPrice(rows: seq<BondRow>): Option<Float> {
    if rows == [] then None else FirstTarget(rows, MaxBase(rows))
  }

  lemma {:induction false} FirstTargetSpec(rows: seq<BondRow>, base: Day)
    ensures FirstTarget(rows, base).None? <==> forall i :: 0 <= i < |rows| ==> !(rows[i].base == base && IsTarget(rows[i]))
    ensures FirstTarget(rows, base).Some? ==>
      exists i :: (0 <= i < |rows| && rows[i].base == base && IsTarget(rows[i])
        && FirstTarget(rows, base) == Some(rows[i].price)
        && forall j :: 0 <= j < i ==> !(rows[j].base == base && IsTarget(rows[j])))
  {
    if rows != [] && !(rows[0].base == base && IsTarget(rows[0])) {
      FirstTargetSpec(rows[1..], base);
      assert forall i :: 1 <= i < |rows| ==> rows[i] == rows[1..][i - 1];
      if FirstTarget(rows, base).Some? {
        var i :| 0 <= i < |rows[1..]| && rows[1..][i].base == base && IsTarget(rows[1..][i])
          && FirstTarget(rows[1..], base) == Some(rows[1..][i].price)
          && forall j :: 0 <= j < i ==> !(rows[1..][j].base == base && IsTarget(rows[1..][j]));
        assert rows[i + 1] == rows[1..][i];
      }
    }
  }

  /**
   * The bond price is that of the first IPCA-2029 row of the latest base
   * date in the file; there is none when no row of that date matches.
   */
  lemma BondPriceSpec(rows: seq<BondRow>)
    ensures BondPrice(rows).Some? ==>
      exists i :: (0 <= i < |rows| && IsTarget(rows[i])
        && (forall j :: 0 <= j < |rows| ==> rows[j].base <= rows[i].base)
        && BondPrice(rows) == Some(rows[i].price)
        && forall j :: 0 <= j < i ==> !(rows[j].base == rows[i].base && IsTarget(rows[j])))
    ensures BondPrice(rows).None? ==> forall i :: 0 <= i < |rows| && IsTarget(rows[i]) ==> exists j :: 0 <= j < |rows| && rows[j].base > rows[i].base
  {
    if rows != [] {
      var m := MaxBase(rows);
      FirstTargetSpec(rows, m);
      if BondPrice(rows).None? {
        forall i | 0 <= i < |rows| && IsTarget(rows[i])
          ensures exists j :: 0 <= j < |rows| && rows[j].base > rows[i].base
        {
          var j :| 0 <= j < |rows| && rows[j].base == m;
          assert rows[i].base != m;
          assert rows[j].base > rows[i].base;
        }
      }
    }
  }

  /** Part D: every TESOURO asset gets the bond price; `file` is None when reading the file raised. */
  function TesouroSection(t: Table<Float>, assets: seq<Asset>, file: Option<seq<BondRow>>): (r: Table<Float>)
    requires Valid(t)
    ensures Valid(r)
  {
    if file.None? then t
    else
      match BondPrice(file.value)
      case None => t
      case Some(p) =>
        var bonds := TickersOf(assets, {"TESOURO"});
        AssignAll(t, seq(|bonds|, i requires 0 <= i < |bonds| => (bonds[i], p)))
  }

  lemma {:induction false} SamePriceValue(keys: seq<string>, p: Float, k: string)
    ensures LastValue(seq(|keys|, i requires 0 <= i < |keys| => (keys[i], p)), k) == if k in keys then Some(p) else None
  {
    if keys != [] {
      var init := keys[..|keys| - 1];
      SamePriceValue(init, p, k);
      assert seq(|keys|, i requires 0 <= i < |keys| => (keys[i], p))[..|init|] == seq(|init|, i requires 0 <= i < |init| => (init[i], p));
      assert keys == init + [keys[|keys| - 1]];
    }
  }

  /** Every TESOURO ticker gets the bond price when there is one; nothing else changes. */
  lemma TesouroPrices(t: Table<Float>, assets: seq<Asset>, file: Option<seq<BondRow>>, k: string)
    requires Valid(t)
    ensures var r := TesouroSection(t, assets, file);
      if file.Some? && BondPrice(file.value).Some? && k in TickersOf(assets, {"TESOURO"}) then
        k in r.entries && r.entries[k] == BondPrice(file.value).value
      else
        (k in r.entries <==> k in t.entries) && (k in t.entries ==> r.entries[k] == t.entries[k])
  {
    if file.Some? && BondPrice(file.value).Some? {
      var bonds := TickersOf(assets, {"TESOURO"});
      var p := BondPrice(file.value).value;
      SamePriceValue(bonds, p, k);
      AssignAllSpec(t, seq(|bonds|, i requires 0 <= i < |bonds| => (bonds[i], p)), k);
    }
  }

  method FillTesouro(d: Dict<Float>, assets: seq<Asset>, file: Option<seq<BondRow>>)
    modifies d
    requires Valid(d.State())
    ensures d.State() == TesouroSection(old(d.State()), assets, file)
  {
    var bonds := TickersOf(assets, {"TESOURO"});
    if |bonds| > 0 && file.Some? {
      var found := BondPrice(file.value);
      if found.Some? {
        d.PutAll(seq(|bonds|, i requires 0 <= i < |bonds| => (bonds[i], found.value)));
      }
    }
  }

  // ---------------------------------------------------------------------
  // Finalisation and output
  // ---------------------------------------------------------------------

  /** `str(t).strip()` of each ticker. */
  function Stripped(tickers: seq<string>): (r: seq<string>)
    ensures |r| == |tickers| && forall i :: 0 <= i < |tickers| ==> r[i] == Strip(tickers[i])
  {
    seq(|tickers|, i requires 0 <= i < |tickers| => Strip(tickers[i]))
  }

  /** One key of the finalisation loop: a missing key gets the sentinel. */
  function FinalizeOne(t: Table<Float>, k: string): (r: Table<Float>)
    requires Valid(t)
    ensures Valid(r)
  {
    if k in t.entries then t else Assign(t, k, Sentinel)
  }

  lemma FinalizeOneKeys(t: Table<Float>, last: string, k: string)
    requires Valid(t)
    ensures k in FinalizeOne(t, last).entries <==> k in t.entries || k == last
  {
  }

  /** Lines 102-103 over the stripped tickers: each key not yet priced gets the sentinel. */
  function Finalized(t: Table<Float>, keys: seq<string>): (r: Table<Float>)
    requires Valid(t)
    ensures Valid(r)
  {
    if keys == [] then t else FinalizeOne(Finalized(t, keys[..|keys| - 1]), keys[|keys| - 1])
  }

  /** After finalisation exactly the keys already priced and the stripped tickers are present. */
  lemma {:induction false} FinalizedKeys(t: Table<Float>, keys: seq<string>, k: string)
    requires Valid(t)
    ensures k in Finalized(t, keys).entries <==> k in t.entries || k in keys
  {
    if keys != [] {
      var init := keys[..|keys| - 1];
      var last := keys[|keys| - 1];
      FinalizedKeys(t, init, k);
      var prev := Finalized(t, init);
      assert Finalized(t, keys) == FinalizeOne(prev, last);
      FinalizeOneKeys(prev, last, k);
      assert k in keys <==> k in init || k == last by {
        assert keys == init + [last];
      }
    }
  }

  /** A key that had a price keeps it. */
  lemma {:induction false} FinalizedKeeps(t: Table<Float>, keys: seq<string>, k: string)
    requires Valid(t)
    ensures k in t.entries ==> k in Finalized(t, keys).entries && Finalized(t, keys).entries[k] == t.entries[k]
  {
    if keys != [] {
      FinalizedKeeps(t, keys[..|keys| - 1], k);
    }
  }

  /** A key that had no price and has one now is priced 1.0. */
  lemma {:induction false} FinalizedSentinel(t: Table<Float>, keys: seq<string>, k: string)
    requires Valid(t)
    ensures k !in t.entries && k in Finalized(t, keys).entries ==> Finalized(t, keys).entries[k] == Sentinel
  {
    if keys != [] {
      FinalizedSentinel(t, keys[..|keys| - 1], k);
    }
  }

  /** `df_assets['ticker'].unique()` */
  function AllTickers(assets: seq<Asset>): (r: seq<string>)
    ensures |r| == |assets| && forall i :: 0 <= i < |assets| ==> r[i] == assets[i].ticker
  {
    seq(|assets|, i requires 0 <= i < |assets| => assets[i].ticker)
  }

  lemma FinalizedStep(t: Table<Float>, keys: seq<string>, i: nat)
    requires Valid(t) && i < |keys|
    ensures Finalized(t, keys[..i + 1]) == FinalizeOne(Finalized(t, keys[..i]), keys[i])
  {
    assert keys[..i + 1][..i] == keys[..i];
  }

  /** Lines 102-103 for one ticker. */
  method FinalizeKey(d: Dict<Float>, k: string)
    modifies d
    requires Valid(d.State())
    ensures d.State() == FinalizeOne(old(d.State()), k)
  {
    if !d.Has(k) {
      d.Put(k, Sentinel);
    }
  }

  method Finalize(d: Dict<Float>, assets: seq<Asset>)
    modifies d
    requires Valid(d.State())
    ensures d.State() == Finalized(old(d.State()), Stripped(Unique(AllTickers(assets))))
  {
    var tickers := Unique(AllTickers(assets));
    ghost var keys := Stripped(tickers);
    var i := 0;
    while i < |tickers|
      invariant 0 <= i <= |tickers|
      invariant d.State() == Finalized(old(d.State()), keys[..i])
    {
      FinalizedStep(old(d.State()), keys, i);
      FinalizeKey(d, Strip(tickers[i]));
      i := i + 1;
    }
    assert keys[..i] == keys;
  }

  /** Line 108: a finite price is written as is, NaN and infinities as 0.0. */
  function Sanitize(p: Float): real {
    if p.Finite? then p.value else 0.0
  }

  /** The rows written to `market_data`, one per key of the price dict. */
  function MarketRows(t: Table<Float>): seq<(string, real)>
    requires Valid(t)
  {
    var items := Items(t);
    seq(|items|, i requires 0 <= i < |items| => (items[i].0, Sanitize(items[i].1)))
  }

  /** The sheet has one row per key, each with the key's sanitised price. */
  lemma MarketRowsSpec(t: Table<Float>)
    requires Valid(t)
    ensures forall i, j :: 0 <= i < j < |MarketRows(t)| ==> MarketRows(t)[i].0 != MarketRows(t)[j].0
    ensures forall k :: k in t.entries ==> exists i :: 0 <= i < |MarketRows(t)| && MarketRows(t)[i] == (k, Sanitize(t.entries[k]))
    ensures forall i :: 0 <= i < |MarketRows(t)| ==> MarketRows(t)[i].0 in t.entries
  {
    ItemsOnePerKey(t);
    forall k | k in t.entries
      ensures exists i :: 0 <= i < |MarketRows(t)| && MarketRows(t)[i] == (k, Sanitize(t.entries[k]))
    {
      var i :| 0 <= i < |Items(t)| && Items(t)[i] == (k, t.entries[k]);
      assert MarketRows(t)[i] == (k, Sanitize(t.entries[k]));
    }
  }

  /** The price dict after all four parts. */
  function MarketTable(assets: seq<Asset>, download: Option<string -> Extraction>,
                       reports: nat -> Option<seq<QuotaRow>>, file: Option<seq<BondRow>>): (r: Table<Float>)
    ensures Valid(r)
  {
    Finalized(Downstream(YahooSection(EmptyTable(), assets, download), assets, reports, file),
              Stripped(Unique(AllTickers(assets))))
  }

  /** The CVM and Tesouro parts, which follow the Yahoo part. */
  function Downstream(t: Table<Float>, assets: seq<Asset>,
                      reports: nat -> Option<seq<QuotaRow>>, file: Option<seq<BondRow>>): (r: Table<Float>)
    requires Valid(t)
    ensures Valid(r)
  {
    TesouroSection(CvmSection(t, FundTable(assets), reports), assets, file)
  }

  /** `update_all_market_data`, from the moment the `assets` sheet is read to the rows written. */
  method UpdateAllMarketData(assets: seq<Asset>, download: Option<string -> Extraction>,
                             reports: nat -> Option<seq<QuotaRow>>, file: Option<seq<BondRow>>)
    returns (rows: seq<(string, real)>)
    ensures rows == MarketRows(MarketTable(assets, download, reports, file))
  {
    var d := new Dict<Float>();
    FillYahoo(d, assets, download);
    var funds := BuildFundMap(assets);
    FillCvm(d, funds.State(), reports);
    FillTesouro(d, assets, file);
    Finalize(d, assets);
    rows := MarketRows(d.State());
  }

  /** Every ticker of the `assets` sheet, stripped, has a row in `market_data`. */
  lemma EveryAssetPriced(assets: seq<Asset>, download: Option<string -> Extraction>,
                         reports: nat -> Option<seq<QuotaRow>>, file: Option<seq<BondRow>>, a: Asset)
    requires a in assets
    ensures var rows := MarketRows(MarketTable(assets, download, reports, file));
      exists i :: 0 <= i < |rows| && rows[i].0 == Strip(a.ticker)
  {
    var afterTesouro := Downstream(YahooSection(EmptyTable(), assets, download), assets, reports, file);
    var tickers := Unique(AllTickers(assets));
    AssetKeyListed(assets, a);
    FinalizedKeys(afterTesouro, Stripped(tickers), Strip(a.ticker));
    MarketRowsSpec(MarketTable(assets, download, reports, file));
  }

  lemma {:induction false} TickersOfKind(assets: seq<Asset>, kinds: set<string>, k: string)
    requires forall i :: 0 <= i < |assets| && assets[i].ticker == k ==> assets[i].kind !in kinds
    ensures k !in TickersOf(assets, kinds)
  {
    TickersOfSpec(assets, kinds, k);
  }

  /** The CVM and Tesouro parts leave alone a key that no fund or bond asset has as ticker. */
  lemma DownstreamKeeps(t: Table<Float>, assets: seq<Asset>,
                        reports: nat -> Option<seq<QuotaRow>>, file: Option<seq<BondRow>>, k: string)
    requires Valid(t)
    requires forall i :: 0 <= i < |assets| && assets[i].ticker == k ==> assets[i].kind != "FUNDO" && assets[i].kind != "TESOURO"
    ensures var r := Downstream(t, assets, reports, file);
      (k in r.entries <==> k in t.entries) && (k in t.entries ==> r.entries[k] == t.entries[k])
  {
    var funds := FundTable(assets);
    forall key | key in funds.entries ensures funds.entries[key] != k {
      FundTableTickers(assets, key);
    }
    CvmOnlyFundTickers(t, funds, reports, k);
    TickersOfKind(assets, {"TESOURO"}, k);
    TesouroPrices(CvmSection(t, funds, reports), assets, file, k);
  }

  /** Finalisation keeps a price and gives the sentinel to a stripped ticker without one. */
  lemma FinalizedPrice(t: Table<Float>, keys: seq<string>, k: string)
    requires Valid(t) && (k in t.entries || k in keys)
    ensures k in Finalized(t, keys).entries
    ensures Finalized(t, keys).entries[k] == if k in t.entries then t.entries[k] else Sentinel
  {
    FinalizedKeys(t, keys, k);
    FinalizedKeeps(t, keys, k);
    FinalizedSentinel(t, keys, k);
  }

  /** Every asset's stripped ticker is one of the keys the finalisation visits. */
  lemma AssetKeyListed(assets: seq<Asset>, a: Asset)
    requires a in assets
    ensures Strip(a.ticker) in Stripped(Unique(AllTickers(assets)))
  {
    var j :| 0 <= j < |assets| && assets[j] == a;
    assert AllTickers(assets)[j] == a.ticker;
    var tickers := Unique(AllTickers(assets));
    var i :| 0 <= i < |tickers| && tickers[i] == a.ticker;
    assert Stripped(tickers)[i] == Strip(a.ticker);
  }

  /** What the Yahoo part leaves for a quoted ticker is what the sheet gets, or 1.0 if it left nothing. */
  lemma YahooThenRest(assets: seq<Asset>, download: Option<string -> Extraction>,
                      reports: nat -> Option<seq<QuotaRow>>, file: Option<seq<BondRow>>, a: Asset)
    requires a in assets && Strip(a.ticker) == a.ticker
    requires forall i :: 0 <= i < |assets| && assets[i].ticker == a.ticker ==> assets[i].kind != "FUNDO" && assets[i].kind != "TESOURO"
    ensures var y := YahooSection(EmptyTable(), assets, download);
      var r := MarketTable(assets, download, reports, file);
      a.ticker in r.entries && r.entries[a.ticker] == if a.ticker in y.entries then y.entries[a.ticker] else Sentinel
  {
    var y := YahooSection(EmptyTable(), assets, download);
    AssetKeyListed(assets, a);
    DownstreamKeeps(y, assets, reports, file, a.ticker);
    FinalizedPrice(Downstream(y, assets, reports, file), Stripped(Unique(AllTickers(assets))), a.ticker);
  }

  /** A quoted ticker whose read raised is written as 0.0, not as the sentinel. */
  lemma RaisedIsZero(assets: seq<Asset>, closes: string -> Extraction,
                     reports: nat -> Option<seq<QuotaRow>>, file: Option<seq<BondRow>>, a: Asset)
    requires a in assets && a.kind in YahooKinds && Strip(a.ticker) == a.ticker
    requires forall i :: 0 <= i < |assets| && assets[i].ticker == a.ticker ==> assets[i].kind != "FUNDO" && assets[i].kind != "TESOURO"
    requires closes(a.ticker) == Raised
    ensures var r := MarketTable(assets, Some(closes), reports, file);
      a.ticker in r.entries && r.entries[a.ticker] == Finite(0.0)
  {
    var j :| 0 <= j < |assets| && assets[j] == a;
    TickersOfSpec(assets, YahooKinds, a.ticker);
    assert assets[j].kind in YahooKinds && assets[j].ticker == a.ticker;
    var y := YahooSection(EmptyTable(), assets, Some(closes));
    YahooPrices(EmptyTable(), assets, Some(closes), a.ticker);
    assert YahooValue(closes(a.ticker)) == Some(Finite(0.0));
    assert y.entries[a.ticker] == Finite(0.0);
    YahooThenRest(assets, Some(closes), reports, file, a);
  }

  /** A quoted ticker whose close is null is written as the sentinel 1.0. */
  lemma NullIsSentinel(assets: seq<Asset>, closes: string -> Extraction,
                       reports: nat -> Option<seq<QuotaRow>>, file: Option<seq<BondRow>>, a: Asset)
    requires a in assets && Strip(a.ticker) == a.ticker
    requires forall i :: 0 <= i < |assets| && assets[i].ticker == a.ticker ==> assets[i].kind != "FUNDO" && assets[i].kind != "TESOURO"
    requires closes(a.ticker) == Close(NaN)
    ensures var r := MarketTable(assets, Some(closes), reports, file);
      a.ticker in r.entries && r.entries[a.ticker] == Sentinel
  {
    var y := YahooSection(EmptyTable(), assets, Some(closes));
    YahooPrices(EmptyTable(), assets, Some(closes), a.ticker);
    assert YahooValue(closes(a.ticker)) == None;
    assert a.ticker !in y.entries;
    YahooThenRest(assets, Some(closes), reports, file, a);
  }
}
