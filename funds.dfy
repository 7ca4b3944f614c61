/**
 * update_funds.py: the quotas of funds held by CNPJ. Every transaction
 * ticker that reads as a CNPJ is looked up in the CVM daily report of the
 * current or the previous month; the existing `market_data` rows are kept,
 * a CNPJ with a truthy quota is overwritten with it, and a CNPJ without
 * one keeps its row or gets 1.0.
 */
module Funds {
  import opened Common
  import opened Text
  import opened Tables
  import opened Quotas
  import MarketData

  /** Line 38: the stripped ticker without `.`, `/` and `-`. */
  function CnpjText(t: string): string {
    RemoveAll(RemoveAll(RemoveAll(Strip(t), '.'), '/'), '-')
  }

  /** Line 39: the ticker names a fund when that text is 14 digits. */
  predicate IsCnpj(t: string) {
    |CnpjText(t)| == 14 && AllDigits(CnpjText(t))
  }

  /** The texts of the tickers that pass the test, in ticker order. */
  function Kept(tickers: seq<string>, test: string -> bool, text: string -> string): seq<string> {
    if tickers == [] then []
    else
      var prev := Kept(tickers[..|tickers| - 1], test, text);
      var t := tickers[|tickers| - 1];
      if test(t) then prev + [text(t)] else prev
  }

  lemma {:induction false} KeptComplete(tickers: seq<string>, test: string -> bool, text: string -> string, i: nat)
    requires i < |tickers| && test(tickers[i])
    ensures text(tickers[i]) in Kept(tickers, test, text)
  {
    var init := tickers[..|tickers| - 1];
    if i < |init| {
      assert init[i] == tickers[i];
      KeptComplete(init, test, text, i);
    }
  }

  lemma {:induction false} KeptSound(tickers: seq<string>, test: string -> bool, text: string -> string, c: string)
    requires c in Kept(tickers, test, text)
    ensures exists i :: 0 <= i < |tickers| && test(tickers[i]) && text(tickers[i]) == c
  {
    var init := tickers[..|tickers| - 1];
    if c in Kept(init, test, text) {
      KeptSound(init, test, text, c);
      var i :| 0 <= i < |init| && test(init[i]) && text(init[i]) == c;
      assert tickers[i] == init[i];
    }
  }

  /** Lines 36-40: `cnpjs_validos`, in ticker order. */
  function ValidCnpjs(tickers: seq<string>): (r: seq<string>)
    ensures forall c :: c in r ==> |c| == 14 && AllDigits(c)
  {
    var r := Kept(tickers, IsCnpj, CnpjText);
    assert forall c :: c in r ==> |c| == 14 && AllDigits(c) by {
      forall c | c in r ensures |c| == 14 && AllDigits(c) {
        KeptSound(tickers, IsCnpj, CnpjText, c);
      }
    }
    r
  }

  /** Every ticker that reads as a CNPJ has its text collected. */
  lemma ValidCnpjsComplete(tickers: seq<string>, i: nat)
    requires i < |tickers| && IsCnpj(tickers[i])
    ensures CnpjText(tickers[i]) in ValidCnpjs(tickers)
  {
    KeptComplete(tickers, IsCnpj, CnpjText, i);
  }

  /** Nothing else is collected: each text is that of a ticker reading as a CNPJ. */
  lemma ValidCnpjsSound(tickers: seq<string>, c: string)
    requires c in ValidCnpjs(tickers)
    ensures exists i :: 0 <= i < |tickers| && IsCnpj(tickers[i]) && CnpjText(tickers[i]) == c
  {
    KeptSound(tickers, IsCnpj, CnpjText, c);
  }

  method CollectCnpjs(tickers: seq<string>) returns (valid: seq<string>)
    ensures valid == ValidCnpjs(tickers)
  {
    valid := [];
    var i := 0;
    while i < |tickers|
      invariant 0 <= i <= |tickers|
      invariant valid == ValidCnpjs(tickers[..i])
    {
      assert tickers[..i + 1][..i] == tickers[..i];
      var t := CnpjText(tickers[i]);
      if |t| == 14 && AllDigits(t) {
        valid := valid + [t];
      }
      i := i + 1;
    }
    assert tickers[..i] == tickers;
  }

  lemma RemoveAllSnoc(a: string, x: char, c: char)
    ensures RemoveAll(a + [x], c) == RemoveAll(a, c) + (if x == c then [] else [x])
  {
    assert (a + [x])[..|a|] == a;
  }

  lemma DigitsOfSnoc(a: string, x: char)
    ensures DigitsOf(a + [x]) == DigitsOf(a) + (if IsDigit(x) then [x] else [])
  {
    assert (a + [x])[..|a|] == a;
  }

  /** A CNPJ written with its usual punctuation reads as its digits. */
  lemma {:induction false} SeparatorsRemoved(s: string)
    requires forall i :: 0 <= i < |s| ==> IsDigit(s[i]) || s[i] in {'.', '/', '-'}
    ensures RemoveAll(RemoveAll(RemoveAll(s, '.'), '/'), '-') == DigitsOf(s)
  {
    if s != [] {
      var init := s[..|s| - 1];
      var x := s[|s| - 1];
      assert s == init + [x];
      SeparatorsRemoved(init);
      var a := RemoveAll(init, '.');
      var b := RemoveAll(a, '/');
      DigitsOfSnoc(init, x);
      RemoveAllSnoc(init, x, '.');
      if x == '.' {
        assert RemoveAll(s, '.') == a;
      } else {
        assert RemoveAll(s, '.') == a + [x];
        RemoveAllSnoc(a, x, '/');
        if x == '/' {
          assert RemoveAll(a + [x], '/') == b;
        } else {
          assert RemoveAll(a + [x], '/') == b + [x];
          RemoveAllSnoc(b, x, '-');
        }
      }
    }
  }

  /**
   * A punctuated CNPJ such as 12.345.678/0001-90 is a CNPJ here, and both
   * scripts normalise it to the same 14 digits.
   */
  lemma PunctuatedCnpj(s: string)
    requires forall i :: 0 <= i < |s| ==> IsDigit(s[i]) || s[i] in {'.', '/', '-'}
    requires |DigitsOf(s)| == 14
    ensures IsCnpj(s) && CnpjText(s) == DigitsOf(s)
    ensures MarketData.Registered(s) && MarketData.FundKey(s) == CnpjText(s)
  {
    if s != [] {
      assert !IsSpace(s[0]) && !IsSpace(s[|s| - 1]);
    }
    StripTrimmed(s);
    SeparatorsRemoved(s);
  }

  // ---------------------------------------------------------------------
  // The merge into market_data
  // ---------------------------------------------------------------------

  /** A row of `market_data`: ticker and close_price. */
  datatype MarketRow = MarketRow(ticker: string, close: Float)

  /** Line 68: `final_data`, seeded from the existing rows (a repeated ticker keeps its last price). */
  function Seeded(rows: seq<MarketRow>): (r: Table<Float>)
    ensures Valid(r)
  {
    AssignAll(EmptyTable(), seq(|rows|, i requires 0 <= i < |rows| => (rows[i].ticker, rows[i].close)))
  }

  /** The seed holds every ticker of the sheet, valued by the last row with that ticker. */
  lemma {:induction false} SeededSpec(rows: seq<MarketRow>, k: string)
    ensures k in Seeded(rows).entries <==> exists i :: 0 <= i < |rows| && rows[i].ticker == k
    ensures k in Seeded(rows).entries ==>
      exists i :: (0 <= i < |rows| && rows[i].ticker == k && Seeded(rows).entries[k] == rows[i].close
        && forall j :: i < j < |rows| ==> rows[j].ticker != k)
  {
    var pairs := seq(|rows|, i requires 0 <= i < |rows| => (rows[i].ticker, rows[i].close));
    SeedPairs(rows, pairs, k);
  }

  lemma {:induction false} SeedPairs(rows: seq<MarketRow>, pairs: seq<(string, Float)>, k: string)
    requires |pairs| == |rows| && forall i :: 0 <= i < |rows| ==> pairs[i] == (rows[i].ticker, rows[i].close)
    ensures k in AssignAll(EmptyTable(), pairs).entries <==> exists i :: 0 <= i < |rows| && rows[i].ticker == k
    ensures k in AssignAll(EmptyTable(), pairs).entries ==>
      exists i :: (0 <= i < |rows| && rows[i].ticker == k && AssignAll(EmptyTable(), pairs).entries[k] == rows[i].close
        && forall j :: i < j < |rows| ==> rows[j].ticker != k)
  {
    AssignAllSpec(EmptyTable(), pairs, k);
    LastValueSome(pairs, k);
    if LastValue(pairs, k).Some? {
      var i :| 0 <= i < |pairs| && pairs[i] == (k, LastValue(pairs, k).value) && forall j :: i < j < |pairs| ==> pairs[j].0 != k;
      assert rows[i].ticker == k && rows[i].close == LastValue(pairs, k).value;
      forall j | i < j < |rows| ensures rows[j].ticker != k {
        assert pairs[j].0 == rows[j].ticker;
      }
    } else {
      forall i | 0 <= i < |rows| ensures rows[i].ticker != k {
        assert pairs[i].0 == rows[i].ticker;
      }
    }
  }

  /** Lines 72-80 for one CNPJ. */
  function MergeOne(t: Table<Float>, quotas: map<string, QuotaRow>, c: string): (r: Table<Float>)
    requires Valid(t)
    ensures Valid(r)
  {
    if c in quotas && Truthy(quotas[c].quota) then Assign(t, c, quotas[c].quota)
    else if c in t.entries then t
    else Assign(t, c, Finite(1.0))
  }

  /** Lines 70-80: the loop over `cnpjs_validos`. */
  function Merged(t: Table<Float>, quotas: map<string, QuotaRow>, cnpjs: seq<string>): (r: Table<Float>)
    requires Valid(t)
    ensures Valid(r)
  {
    if cnpjs == [] then t else MergeOne(Merged(t, quotas, cnpjs[..|cnpjs| - 1]), quotas, cnpjs[|cnpjs| - 1])
  }

  /** The value the merge gives a CNPJ of the list. */
  function MergedValue(t: Table<Float>, quotas: map<string, QuotaRow>, c: string): Float {
    if c in quotas && Truthy(quotas[c].quota) then quotas[c].quota
    else if c in t.entries then t.entries[c]
    else Finite(1.0)
  }

  /**
   * After the merge the keys are the old keys and the CNPJs; a CNPJ holds
   * its truthy quota, else its old price, else 1.0; every other key keeps
   * its price.
   */
  lemma {:induction false} MergedSpec(t: Table<Float>, quotas: map<string, QuotaRow>, cnpjs: seq<string>, k: string)
    requires Valid(t)
    ensures k in Merged(t, quotas, cnpjs).entries <==> k in t.entries || k in cnpjs
    ensures k in cnpjs ==> k in Merged(t, quotas, cnpjs).entries && Merged(t, quotas, cnpjs).entries[k] == MergedValue(t, quotas, k)
    ensures k !in cnpjs && k in t.entries ==> k in Merged(t, quotas, cnpjs).entries && Merged(t, quotas, cnpjs).entries[k] == t.entries[k]
  {
    if cnpjs != [] {
      var init := cnpjs[..|cnpjs| - 1];
      var c := cnpjs[|cnpjs| - 1];
      MergedSpec(t, quotas, init, k);
      var mid := Merged(t, quotas, init);
      assert Merged(t, quotas, cnpjs) == MergeOne(mid, quotas, c);
      MergeOneSpec(mid, quotas, c, k);
      assert cnpjs == init + [c];
      if k == c {
        MergedValueStep(t, mid, quotas, k, k in init);
      }
    }
  }

  /** The value merged after an earlier merge step equals the value merged from the start. */
  lemma MergedValueStep(t: Table<Float>, mid: Table<Float>, quotas: map<string, QuotaRow>, k: string, seen: bool)
    requires k in mid.entries <==> k in t.entries || seen
    requires seen ==> k in mid.entries && mid.entries[k] == MergedValue(t, quotas, k)
    requires !seen && k in t.entries ==> k in mid.entries && mid.entries[k] == t.entries[k]
    ensures MergedValue(mid, quotas, k) == MergedValue(t, quotas, k)
  {
  }

  /** One step of the merge: the CNPJ gets its merged value, every other key is untouched. */
  lemma MergeOneSpec(t: Table<Float>, quotas: map<string, QuotaRow>, c: string, k: string)
    requires Valid(t)
    ensures k in MergeOne(t, quotas, c).entries <==> k in t.entries || k == c
    ensures k == c ==> k in MergeOne(t, quotas, c).entries && MergeOne(t, quotas, c).entries[k] == MergedValue(t, quotas, c)
    ensures k != c && k in t.entries ==> k in MergeOne(t, quotas, c).entries && MergeOne(t, quotas, c).entries[k] == t.entries[k]
  {
  }

  /** A zero quota never overwrites: the CNPJ keeps its price, or gets 1.0. */
  lemma ZeroQuotaNeverOverwrites(t: Table<Float>, quotas: map<string, QuotaRow>, cnpjs: seq<string>, k: string)
    requires Valid(t)
    requires k in cnpjs && k in quotas && quotas[k].quota == Finite(0.0)
    ensures k in Merged(t, quotas, cnpjs).entries
    ensures Merged(t, quotas, cnpjs).entries[k] == if k in t.entries then t.entries[k] else Finite(1.0)
  {
    MergedSpec(t, quotas, cnpjs, k);
  }

  lemma MergeStep(t: Table<Float>, quotas: map<string, QuotaRow>, cnpjs: seq<string>, i: nat)
    requires Valid(t) && i < |cnpjs|
    ensures Merged(t, quotas, cnpjs[..i + 1]) == MergeOne(Merged(t, quotas, cnpjs[..i]), quotas, cnpjs[i])
  {
    assert cnpjs[..i + 1][..i] == cnpjs[..i];
  }

  /** Lines 72-80: one CNPJ of the loop. */
  method MergeInto(d: Dict<Float>, quotas: map<string, QuotaRow>, cnpj: string)
    modifies d
    requires Valid(d.State())
    ensures d.State() == MergeOne(old(d.State()), quotas, cnpj)
  {
    var price := if cnpj in quotas then Some(quotas[cnpj].quota) else None;
    if price.Some? && Truthy(price.value) {
      d.Put(cnpj, price.value);
    } else if !d.Has(cnpj) {
      d.Put(cnpj, Finite(1.0));
    }
  }

  method Merge(d: Dict<Float>, quotas: map<string, QuotaRow>, cnpjs: seq<string>)
    modifies d
    requires Valid(d.State())
    ensures d.State() == Merged(old(d.State()), quotas, cnpjs)
  {
    var i := 0;
    while i < |cnpjs|
      invariant 0 <= i <= |cnpjs|
      invariant d.State() == Merged(old(d.State()), quotas, cnpjs[..i])
    {
      MergeStep(old(d.State()), quotas, cnpjs, i);
      MergeInto(d, quotas, cnpjs[i]);
      i := i + 1;
    }
    assert cnpjs[..i] == cnpjs;
  }

  // ---------------------------------------------------------------------
  // The run
  // ---------------------------------------------------------------------

  /** The CNPJ_FUNDO cell taken as it is. */
  function Verbatim(c: string): string {
    c
  }

  /** Lines 60-61: the latest row per CNPJ_FUNDO cell, keyed exactly as the report spells it. */
  function QuotaIndexAsWritten(rows: seq<QuotaRow>): map<string, QuotaRow> {
    Latest(rows, Verbatim)
  }

  /** The corrected index: keyed by the same text the tickers are reduced to (line 38). */
  function QuotaIndex(rows: seq<QuotaRow>): map<string, QuotaRow> {
    Latest(rows, CnpjText)
  }

  /**
   * The rows written back to `market_data` when the report is indexed by
   * `key`, or None when nothing is written: no ticker reads as a CNPJ
   * (lines 42-44) or neither monthly report loads, so that `df_cvm` is
   * unbound at line 60 and the script stops with an exception.
   */
  function OutputKeyedBy(trades: seq<string>, reports: nat -> Option<seq<QuotaRow>>, market: seq<MarketRow>,
                         key: string -> string): Option<seq<(string, Float)>> {
    var cnpjs := ValidCnpjs(Unique(trades));
    if cnpjs == [] then None
    else
      match FirstLoad(reports, 0, 2)
      case None => None
      case Some(rows) => Some(Items(Merged(Seeded(market), Latest(rows, key), cnpjs)))
  }

  /** What the script writes, with the index as written. */
  function FundsOutput(trades: seq<string>, reports: nat -> Option<seq<QuotaRow>>, market: seq<MarketRow>): Option<seq<(string, Float)>> {
    OutputKeyedBy(trades, reports, market, Verbatim)
  }

  /** What the script evidently means to write: the index keyed like the tickers. */
  function CorrectedFundsOutput(trades: seq<string>, reports: nat -> Option<seq<QuotaRow>>, market: seq<MarketRow>): Option<seq<(string, Float)>> {
    OutputKeyedBy(trades, reports, market, CnpjText)
  }

  /** `update_funds` from the moment the sheets are read; `trades` is the ticker column of `transactions`. */
  method UpdateFunds(trades: seq<string>, reports: nat -> Option<seq<QuotaRow>>, market: seq<MarketRow>)
    returns (written: Option<seq<(string, Float)>>)
    ensures written == FundsOutput(trades, reports, market)
  {
    var cnpjs := CollectCnpjs(Unique(trades));
    if |cnpjs| == 0 {
      return None;
    }
    var loaded: Option<seq<QuotaRow>> := None;
    var i := 0;
    while i < 2
      invariant 0 <= i <= 2
      invariant loaded.None? ==> FirstLoad(reports, i, 2) == FirstLoad(reports, 0, 2)
      invariant loaded.Some? ==> loaded == FirstLoad(reports, 0, 2)
    {
      if reports(i).Some? {
        loaded := reports(i);
        break;
      }
      i := i + 1;
    }
    if loaded.None? {
      return None;
    }
    var d := new Dict<Float>();
    var seed := seq(|market|, j requires 0 <= j < |market| => (market[j].ticker, market[j].close));
    d.PutAll(seed);
    Merge(d, QuotaIndexAsWritten(loaded.value), cnpjs);
    written := Some(Items(d.State()));
  }

  /** Whatever the key, a traded CNPJ whose indexed quota is truthy is written with that quota. */
  lemma IndexedQuotaReachesSheet(trades: seq<string>, reports: nat -> Option<seq<QuotaRow>>, market: seq<MarketRow>,
                                 rows: seq<QuotaRow>, key: string -> string, t: string)
    requires t in trades && IsCnpj(t)
    requires FirstLoad(reports, 0, 2) == Some(rows)
    requires CnpjText(t) in Latest(rows, key) && Truthy(Latest(rows, key)[CnpjText(t)].quota)
    ensures OutputKeyedBy(trades, reports, market, key).Some?
    ensures (CnpjText(t), Latest(rows, key)[CnpjText(t)].quota) in OutputKeyedBy(trades, reports, market, key).value
  {
    var c := CnpjText(t);
    var u := Unique(trades);
    var i :| 0 <= i < |u| && u[i] == t;
    ValidCnpjsComplete(u, i);
    var cnpjs := ValidCnpjs(u);
    var quotas := Latest(rows, key);
    var merged := Merged(Seeded(market), quotas, cnpjs);
    assert OutputKeyedBy(trades, reports, market, key) == Some(Items(merged));
    MergedSpec(Seeded(market), quotas, cnpjs, c);
    assert merged.entries[c] == quotas[c].quota;
    ItemsOnePerKey(merged);
  }

  /**
   * As written: when a report loads and a traded CNPJ's text is spelled
   * exactly so in its latest CNPJ_FUNDO row, with a truthy quota, that quota
   * is what `market_data` receives for the CNPJ.
   */
  lemma QuotaReachesSheet(trades: seq<string>, reports: nat -> Option<seq<QuotaRow>>, market: seq<MarketRow>,
                          rows: seq<QuotaRow>, t: string)
    requires t in trades && IsCnpj(t)
    requires FirstLoad(reports, 0, 2) == Some(rows)
    requires CnpjText(t) in QuotaIndexAsWritten(rows) && Truthy(QuotaIndexAsWritten(rows)[CnpjText(t)].quota)
    ensures FundsOutput(trades, reports, market).Some?
    ensures (CnpjText(t), QuotaIndexAsWritten(rows)[CnpjText(t)].quota) in FundsOutput(trades, reports, market).value
  {
    IndexedQuotaReachesSheet(trades, reports, market, rows, Verbatim, t);
  }

  /** Corrected: the quota of the latest row whose CNPJ_FUNDO reduces to the traded text reaches the sheet. */
  lemma CorrectedQuotaReachesSheet(trades: seq<string>, reports: nat -> Option<seq<QuotaRow>>, market: seq<MarketRow>,
                                   rows: seq<QuotaRow>, t: string)
    requires t in trades && IsCnpj(t)
    requires FirstLoad(reports, 0, 2) == Some(rows)
    requires CnpjText(t) in QuotaIndex(rows) && Truthy(QuotaIndex(rows)[CnpjText(t)].quota)
    ensures CorrectedFundsOutput(trades, reports, market).Some?
    ensures (CnpjText(t), QuotaIndex(rows)[CnpjText(t)].quota) in CorrectedFundsOutput(trades, reports, market).value
  {
    IndexedQuotaReachesSheet(trades, reports, market, rows, CnpjText, t);
  }

  /** Rows of `market_data` whose ticker is not a traded CNPJ reach the sheet unchanged. */
  lemma OtherRowsKept(trades: seq<string>, reports: nat -> Option<seq<QuotaRow>>, market: seq<MarketRow>, k: string)
    requires FundsOutput(trades, reports, market).Some?
    requires k in Seeded(market).entries && k !in ValidCnpjs(Unique(trades))
    ensures (k, Seeded(market).entries[k]) in FundsOutput(trades, reports, market).value
  {
    var rows := FirstLoad(reports, 0, 2).value;
    var merged := Merged(Seeded(market), QuotaIndexAsWritten(rows), ValidCnpjs(Unique(trades)));
    MergedSpec(Seeded(market), QuotaIndexAsWritten(rows), ValidCnpjs(Unique(trades)), k);
    ItemsOnePerKey(merged);
  }

  // ---------------------------------------------------------------------
  // The index as written against the corrected one
  // ---------------------------------------------------------------------

  /**
   * When the report spells every CNPJ with punctuation, the index as
   * written has no traded CNPJ (those are 14 bare digits), so each one
   * keeps its old price or gets 1.0 whatever its quota.
   */
  lemma AsWrittenNeverFindsQuota(t: Table<Float>, rows: seq<QuotaRow>, cnpjs: seq<string>, k: string)
    requires Valid(t)
    requires forall i :: 0 <= i < |rows| ==> !AllDigits(rows[i].cnpj)
    requires k in cnpjs && AllDigits(k)
    ensures k !in QuotaIndexAsWritten(rows)
    ensures k in Merged(t, QuotaIndexAsWritten(rows), cnpjs).entries
    ensures Merged(t, QuotaIndexAsWritten(rows), cnpjs).entries[k] == if k in t.entries then t.entries[k] else Finite(1.0)
  {
    LatestKeys(rows, Verbatim, k);
    MergedSpec(t, QuotaIndexAsWritten(rows), cnpjs, k);
  }

  /** With the index keyed like the tickers, the same punctuated row is found. */
  lemma CorrectedFindsPunctuated(rows: seq<QuotaRow>, j: nat)
    requires j < |rows|
    requires forall i :: 0 <= i < |rows[j].cnpj| ==> IsDigit(rows[j].cnpj[i]) || rows[j].cnpj[i] in {'.', '/', '-'}
    requires |DigitsOf(rows[j].cnpj)| == 14
    ensures DigitsOf(rows[j].cnpj) in QuotaIndex(rows)
    ensures QuotaIndex(rows)[DigitsOf(rows[j].cnpj)].day >= rows[j].day
  {
    PunctuatedCnpj(rows[j].cnpj);
    LatestKeys(rows, CnpjText, DigitsOf(rows[j].cnpj));
    LatestIsLatest(rows, CnpjText, DigitsOf(rows[j].cnpj));
  }
}
