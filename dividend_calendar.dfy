/**
 * update_dividends.py: the `dividend_calendar` sheet. For each
 * dividend-paying asset the announced dividend from Yahoo's calendar is
 * used when it has a date; otherwise the last dividend of the history.
 * Confirmed rows are listed before historical ones, and an empty result
 * is written as one placeholder row.
 */
module DividendCalendar {
  import opened Common
  import MarketData

  const PayerKinds: set<string> := {"ACAO_BR", "FII", "BDR", "ETF_US", "ETF_BR"}

  /** Line 36: the paying tickers, each once, in sheet order. */
  function Payers(assets: seq<MarketData.Asset>): (r: seq<string>)
    ensures Distinct(r)
  {
    Unique(MarketData.TickersOf(assets, PayerKinds))
  }

  /** The calendar's `Dividend Date`: a date, or a value without `strftime` (yfinance may give a list). */
  datatype DateField = Formattable(day: Day) | NotFormattable

  /** What `yf.Ticker(t).calendar` gives: an exception, nothing, or the dict's two fields. */
  datatype CalendarReply =
    | CalendarRaises
    | NoCalendar
    | Calendar(dividendDate: Option<DateField>, dividend: Option<real>)

  /** What `.dividends` gives: an exception, or the series of paid dividends in index order. */
  datatype HistoryReply = HistoryRaises | History(events: seq<Event>)

  datatype Reply = Reply(calendar: CalendarReply, history: HistoryReply)

  datatype Status = Confirmed | Historical

  function StatusText(s: Status): string {
    match s
    case Confirmed => "Confirmado/Futuro"
    case Historical => "Histórico (Último)"
  }

  /** A row of the sheet: ticker, date, value per share, status and the time of the run. */
  datatype Payout = Payout(ticker: string, day: Day, value: real, status: Status, consultedAt: string)

  /** True when the calendar has a formattable `Dividend Date` (line 47-50). */
  predicate HasConfirmedDate(c: CalendarReply) {
    c.Calendar? && c.dividendDate.Some? && c.dividendDate.value.Formattable?
  }

  /** Lines 42-77 for one ticker: the row it contributes, if any. */
  function Pick(t: string, r: Reply, now: string): Option<Payout> {
    if r.calendar.CalendarRaises? then None
    else if HasConfirmedDate(r.calendar) then
      var value := if r.calendar.dividend.Some? then r.calendar.dividend.value else 0.0;
      Some(Payout(t, r.calendar.dividendDate.value.day, value, Confirmed, now))
    else
      match r.history
      case HistoryRaises => None
      case History(events) =>
        if events == [] then None
        else Some(Payout(t, events[|events| - 1].day, events[|events| - 1].rate, Historical, now))
  }

  /**
   * A confirmed calendar date wins whatever the history holds; otherwise
   * the last historical event is used; an exception or no data gives no row.
   */
  lemma PickSpec(t: string, r: Reply, now: string)
    ensures HasConfirmedDate(r.calendar) ==>
      Pick(t, r, now) == Some(Payout(t, r.calendar.dividendDate.value.day,
                                     if r.calendar.dividend.Some? then r.calendar.dividend.value else 0.0, Confirmed, now))
    ensures !HasConfirmedDate(r.calendar) && !r.calendar.CalendarRaises? && r.history.History? && r.history.events != [] ==>
      var last := r.history.events[|r.history.events| - 1];
      Pick(t, r, now) == Some(Payout(t, last.day, last.rate, Historical, now))
    ensures Pick(t, r, now).None? <==>
      r.calendar.CalendarRaises? || (!HasConfirmedDate(r.calendar) && (r.history.HistoryRaises? || r.history.events == []))
    ensures Pick(t, r, now).Some? ==> Pick(t, r, now).value.ticker == t
  {
  }

  /** The rows of the loop over the tickers, in ticker order. */
  function Payouts(tickers: seq<string>, replies: string -> Reply, now: string): seq<Payout> {
    if tickers == [] then []
    else
      var prev := Payouts(tickers[..|tickers| - 1], replies, now);
      var t := tickers[|tickers| - 1];
      match Pick(t, replies(t), now)
      case None => prev
      case Some(p) => prev + [p]
  }

  /** A ticker has a row exactly when its pick gives one, and the row is that pick. */
  lemma {:induction false} PayoutsSpec(tickers: seq<string>, replies: string -> Reply, now: string, t: string)
    requires Distinct(tickers)
    ensures (exists i :: 0 <= i < |Payouts(tickers, replies, now)| && Payouts(tickers, replies, now)[i].ticker == t)
      <==> t in tickers && Pick(t, replies(t), now).Some?
    ensures forall i :: 0 <= i < |Payouts(tickers, replies, now)| && Payouts(tickers, replies, now)[i].ticker == t ==>
      Some(Payouts(tickers, replies, now)[i]) == Pick(t, replies(t), now)
  {
    if tickers != [] {
      var init := tickers[..|tickers| - 1];
      var last := tickers[|tickers| - 1];
      assert Distinct(init);
      PayoutsSpec(init, replies, now, t);
      var prev := Payouts(init, replies, now);
      assert tickers == init + [last];
      PayoutsTickers(init, replies, now);
      assert last !in init by {
        forall i | 0 <= i < |init| ensures init[i] != last {
          assert init[i] == tickers[i];
        }
      }
      assert t in tickers <==> t in init || t == last;
      match Pick(last, replies(last), now)
      case None =>
        assert Payouts(tickers, replies, now) == prev;
      case Some(p) =>
        var rows := Payouts(tickers, replies, now);
        assert rows == prev + [p];
        assert p.ticker == last;
        assert forall i :: 0 <= i < |prev| ==> rows[i] == prev[i];
        if t == last {
          assert rows[|prev|].ticker == t;
        } else if exists i :: 0 <= i < |rows| && rows[i].ticker == t {
          var i :| 0 <= i < |rows| && rows[i].ticker == t;
          assert i < |prev| && prev[i].ticker == t;
        }
    }
  }

  /** Every row belongs to one of the tickers. */
  lemma {:induction false} PayoutsTickers(tickers: seq<string>, replies: string -> Reply, now: string)
    ensures forall i :: 0 <= i < |Payouts(tickers, replies, now)| ==> Payouts(tickers, replies, now)[i].ticker in tickers
  {
    if tickers != [] {
      var init := tickers[..|tickers| - 1];
      PayoutsTickers(init, replies, now);
      assert forall x :: x in init ==> x in tickers;
    }
  }

  /** Each ticker contributes at most one row. */
  lemma {:induction false} OneRowPerTicker(tickers: seq<string>, replies: string -> Reply, now: string)
    requires Distinct(tickers)
    ensures forall i, j :: 0 <= i < j < |Payouts(tickers, replies, now)| ==>
      Payouts(tickers, replies, now)[i].ticker != Payouts(tickers, replies, now)[j].ticker
  {
    if tickers != [] {
      var init := tickers[..|tickers| - 1];
      assert Distinct(init);
      OneRowPerTicker(init, replies, now);
      PayoutsTickers(init, replies, now);
      assert tickers[|tickers| - 1] !in init;
    }
  }

  method CollectPayouts(tickers: seq<string>, replies: string -> Reply, now: string) returns (rows: seq<Payout>)
    ensures rows == Payouts(tickers, replies, now)
  {
    rows := [];
    var i := 0;
    while i < |tickers|
      invariant 0 <= i <= |tickers|
      invariant rows == Payouts(tickers[..i], replies, now)
    {
      assert tickers[..i + 1][..i] == tickers[..i];
      var t := tickers[i];
      var reply := replies(t);
      i := i + 1;
      if reply.calendar.CalendarRaises? {
        continue;
      }
      if HasConfirmedDate(reply.calendar) {
        var value := if reply.calendar.dividend.Some? then reply.calendar.dividend.value else 0.0;
        rows := rows + [Payout(t, reply.calendar.dividendDate.value.day, value, Confirmed, now)];
        continue;
      }
      if reply.history.HistoryRaises? {
        continue;
      }
      var events := reply.history.events;
      if |events| > 0 {
        rows := rows + [Payout(t, events[|events| - 1].day, events[|events| - 1].rate, Historical, now)];
      }
    }
    assert tickers[..i] == tickers;
  }

  // ---------------------------------------------------------------------
  // Sorting by status
  // ---------------------------------------------------------------------

  /** Python's `<` on str: lexicographic by code point. */
  predicate StrLess(a: string, b: string) {
    if a == [] then b != []
    else if b == [] then false
    else if a[0] != b[0] then a[0] < b[0]
    else StrLess(a[1..], b[1..])
  }

  /** The sort key of line 85 as a number: its order is that of the status texts. */
  function StatusKey(p: Payout): int {
    if p.status == Confirmed then 0 else 1
  }

  lemma {:induction false} StrLessIrreflexive(a: string)
    ensures !StrLess(a, a)
  {
    if a != [] {
      StrLessIrreflexive(a[1..]);
    }
  }

  lemma StatusKeyOrder(p: Payout, q: Payout)
    ensures StatusKey(p) < StatusKey(q) <==> StrLess(StatusText(p.status), StatusText(q.status))
  {
    if p.status == q.status {
      StrLessIrreflexive(StatusText(p.status));
    } else {
      ConfirmedTextFirst();
    }
  }

  /** "Confirmado/Futuro" < "Histórico (Último)", decided by the first letters. */
  lemma ConfirmedTextFirst()
    ensures StrLess(StatusText(Confirmed), StatusText(Historical))
    ensures !StrLess(StatusText(Historical), StatusText(Confirmed))
  {
    var c := StatusText(Confirmed);
    var h := StatusText(Historical);
    assert c[0] == 'C' && h[0] == 'H';
  }

  function OfStatus(s: seq<Payout>, st: Status): (r: seq<Payout>)
    ensures forall i :: 0 <= i < |r| ==> r[i].status == st
  {
    if s == [] then []
    else if s[|s| - 1].status == st then OfStatus(s[..|s| - 1], st) + [s[|s| - 1]]
    else OfStatus(s[..|s| - 1], st)
  }

  lemma OfStatusLast(s: seq<Payout>, st: Status)
    requires s != []
    ensures OfStatus(s, st) == OfStatus(s[..|s| - 1], st) + (if s[|s| - 1].status == st then [s[|s| - 1]] else [])
  {
  }

  /** A confirmed row passes the historical rows at the end and stops after the confirmed ones. */
  lemma {:induction false} InsertConfirmed(c: seq<Payout>, h: seq<Payout>, x: Payout)
    requires forall i :: 0 <= i < |c| ==> c[i].status == Confirmed
    requires forall i :: 0 <= i < |h| ==> h[i].status == Historical
    requires x.status == Confirmed
    ensures InsertBy(c + h, x, StatusKey) == c + [x] + h
  {
    if h == [] {
      assert c + h == c;
    } else {
      var h' := h[..|h| - 1];
      var last := h[|h| - 1];
      InsertConfirmed(c, h', x);
      var s := c + h;
      assert s[|s| - 1] == last;
      assert s[..|s| - 1] == c + h';
      assert c + [x] + h' + [last] == c + [x] + h;
    }
  }

  /** A historical row goes after every row already sorted. */
  lemma InsertHistorical(s: seq<Payout>, x: Payout)
    requires x.status == Historical
    ensures InsertBy(s, x, StatusKey) == s + [x]
  {
  }

  lemma {:induction false} SortByStatus(s: seq<Payout>)
    ensures SortBy(s, StatusKey) == OfStatus(s, Confirmed) + OfStatus(s, Historical)
  {
    if s != [] {
      var init := s[..|s| - 1];
      var x := s[|s| - 1];
      SortByStatus(init);
      InsertStatus(OfStatus(init, Confirmed), OfStatus(init, Historical), x);
      OfStatusLast(s, Confirmed);
      OfStatusLast(s, Historical);
    }
  }

  /** Inserting a row into the partition gives the partition with the row on its side. */
  lemma InsertStatus(c: seq<Payout>, h: seq<Payout>, x: Payout)
    requires forall i :: 0 <= i < |c| ==> c[i].status == Confirmed
    requires forall i :: 0 <= i < |h| ==> h[i].status == Historical
    ensures InsertBy(c + h, x, StatusKey) ==
      (c + (if x.status == Confirmed then [x] else [])) + (h + (if x.status == Historical then [x] else []))
  {
    if x.status == Confirmed {
      InsertConfirmed(c, h, x);
      assert h + [] == h;
    } else {
      InsertHistorical(c + h, x);
      assert c + [] == c;
    }
  }

  // ---------------------------------------------------------------------
  // The sheet
  // ---------------------------------------------------------------------

  /** A written row below the header: a payout, or the placeholder `- - - - now`. */
  datatype SheetRow = Entry(payout: Payout) | Placeholder(consultedAt: string)

  /** Lines 83-89: the rows written below the header. */
  function SheetRows(rows: seq<Payout>, now: string): seq<SheetRow> {
    if rows == [] then [Placeholder(now)]
    else
      var sorted := SortBy(rows, StatusKey);
      seq(|sorted|, i requires 0 <= i < |sorted| => Entry(sorted[i]))
  }

  /** `update_dividends` from the moment the `assets` sheet is read; `replies` are the Yahoo lookups. */
  function Calendar(assets: seq<MarketData.Asset>, replies: string -> Reply, now: string): seq<SheetRow> {
    SheetRows(Payouts(Payers(assets), replies, now), now)
  }

  method UpdateDividends(assets: seq<MarketData.Asset>, replies: string -> Reply, now: string)
    returns (written: seq<SheetRow>)
    ensures written == Calendar(assets, replies, now)
  {
    var tickers := Payers(assets);
    var rows := CollectPayouts(tickers, replies, now);
    if |rows| > 0 {
      var sorted := SortBy(rows, StatusKey);
      written := seq(|sorted|, i requires 0 <= i < |sorted| => Entry(sorted[i]));
    } else {
      written := [Placeholder(now)];
    }
  }

  /**
   * The sheet is one placeholder row when no ticker gave a row; otherwise
   * it is those rows, confirmed ones first, each paying ticker at most once.
   */
  lemma CalendarSpec(assets: seq<MarketData.Asset>, replies: string -> Reply, now: string)
    ensures var rows := Payouts(Payers(assets), replies, now);
      rows == [] ==> Calendar(assets, replies, now) == [Placeholder(now)]
    ensures var rows := Payouts(Payers(assets), replies, now);
      var parts := OfStatus(rows, Confirmed) + OfStatus(rows, Historical);
      rows != [] ==> (Calendar(assets, replies, now) == seq(|parts|, i requires 0 <= i < |parts| => Entry(parts[i])))
    ensures var rows := Payouts(Payers(assets), replies, now);
      forall i, j :: 0 <= i < j < |rows| ==> rows[i].ticker != rows[j].ticker
  {
    var rows := Payouts(Payers(assets), replies, now);
    SortByStatus(rows);
    OneRowPerTicker(Payers(assets), replies, now);
  }

  /** A paying asset appears in the sheet exactly when its lookup gives a row. */
  lemma TickerListedIff(assets: seq<MarketData.Asset>, replies: string -> Reply, now: string, t: string)
    ensures (exists i :: 0 <= i < |Payouts(Payers(assets), replies, now)| && Payouts(Payers(assets), replies, now)[i].ticker == t)
      <==> (exists a :: a in assets && a.kind in PayerKinds && a.ticker == t) && Pick(t, replies(t), now).Some?
  {
    PayoutsSpec(Payers(assets), replies, now, t);
    MarketData.TickersOfSpec(assets, PayerKinds, t);
    var u := MarketData.TickersOf(assets, PayerKinds);
    if exists a :: a in assets && a.kind in PayerKinds && a.ticker == t {
      var a :| a in assets && a.kind in PayerKinds && a.ticker == t;
      var i :| 0 <= i < |assets| && assets[i] == a;
      assert t in u;
    }
    if t in u {
      var i :| 0 <= i < |assets| && assets[i].kind in PayerKinds && assets[i].ticker == t;
      assert assets[i] in assets;
    }
  }
}
