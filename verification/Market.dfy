/** Calendars, availability-gated data and the as-of view:
    quantize/market/calendar.py and quantize/market/data.py. */
module Market {
  import opened Collections

  type Asset = int
  type Date = int
  type Instant = int

  datatype MarketSession = MarketSession(date: Date, openAt: Instant, closeAt: Instant)

  /** Strictly increasing dates, each session opens before it closes, and sessions never overlap. */
  ghost predicate OrderedSessions(s: seq<MarketSession>) {
    && (forall i :: 0 <= i < |s| ==> s[i].openAt < s[i].closeAt)
    && (forall i, j :: 0 <= i < j < |s| ==> s[i].date < s[j].date && s[i].closeAt <= s[j].openAt)
  }

  type Calendar = c: seq<MarketSession> | OrderedSessions(c) witness []

  /** The constructor compares each session with the previous one only; that orders all of them. */
  method CheckCalendar(s: seq<MarketSession>) returns (ok: bool)
    ensures ok <==> OrderedSessions(s)
  {
    for i := 0 to |s|
      invariant OrderedSessions(s[..i])
    {
      var session := s[i];
      if !(session.openAt < session.closeAt) {
        return false;
      }
      if i > 0 {
        var previous := s[i - 1];
        if !(previous.date < session.date) || !(previous.closeAt <= session.openAt) {
          return false;
        }
        assert s[..i][i - 1] == previous;
        forall k | 0 <= k < i ensures s[k].date < session.date && s[k].closeAt <= session.openAt {
          if k < i - 1 {
            assert s[..i][k].date < s[..i][i - 1].date && s[..i][k].closeAt <= s[..i][i - 1].openAt;
          }
        }
      }
      assert s[..i + 1] == s[..i] + [session];
    }
    assert s[..|s|] == s;
    return true;
  }

  /** A dated value: one point of a price or indicator history. */
  datatype Point = Point(date: Date, value: real)

  ghost predicate AscendingDates(h: seq<Point>) {
    forall i, j :: 0 <= i < j < |h| ==> h[i].date < h[j].date
  }

  datatype Observation = Observation(date: Date, open: real, close: real, openAt: Instant, closeAt: Instant)

  /** The observation is dated to a session, its prices are positive, and neither price is knowable early. */
  ghost predicate ObservationOk(calendar: Calendar, o: Observation) {
    && o.open > 0.0 && o.close > 0.0
    && exists k :: 0 <= k < |calendar| && calendar[k].date == o.date
         && calendar[k].openAt <= o.openAt && calendar[k].closeAt <= o.closeAt
  }

  ghost predicate SeriesOk(calendar: Calendar, series: seq<Observation>) {
    && (forall i, j :: 0 <= i < j < |series| ==> series[i].date < series[j].date)
    && (forall i :: 0 <= i < |series| ==> ObservationOk(calendar, series[i]))
  }

  datatype MarketData = MarketData(calendar: Calendar, observations: map<Asset, seq<Observation>>)

  ghost predicate DataOk(d: MarketData) {
    d.calendar != [] && forall a :: a in d.observations ==> SeriesOk(d.calendar, d.observations[a])
  }

  type DataSet = d: MarketData | DataOk(d) witness MarketData([MarketSession(0, 0, 1)], map[])

  /** Everything knowable from a dataset at one instant. */
  datatype DataView = DataView(instant: Instant, sessions: seq<Date>,
                               closes: map<Asset, seq<Point>>, opens: map<Asset, seq<Point>>)
  {
    function CloseHistory(asset: Asset): seq<Point> {
      if asset in closes then closes[asset] else []
    }

    function LatestClose(asset: Asset): Option<Point> {
      var history := CloseHistory(asset);
      if history == [] then None else Some(history[|history| - 1])
    }

    /** The open at exactly this date, never a stale substitute. */
    function OpenPrice(asset: Asset, date: Date): Option<real> {
      if asset in opens then ValueAt(opens[asset], date) else None
    }

    /** The close at exactly this date, if it is the latest visible one. */
    function SessionClose(asset: Asset, date: Date): Option<real> {
      match LatestClose(asset)
      case Some(p) => if p.date == date then Some(p.value) else None
      case None => None
    }
  }

  /** The first point dated to date. */
  function ValueAt(h: seq<Point>, date: Date): (r: Option<real>)
    ensures r.None? <==> forall i :: 0 <= i < |h| ==> h[i].date != date
    ensures r.Some? ==> exists i :: 0 <= i < |h| && h[i] == Point(date, r.value)
  {
    if h == [] then None
    else if h[0].date == date then
      assert h[0] == Point(date, h[0].value);
      Some(h[0].value)
    else
      var r := ValueAt(h[1..], date);
      assert r.Some? ==> exists i :: 0 <= i < |h[1..]| && h[1..][i] == Point(date, r.value);
      assert forall i :: 0 <= i < |h[1..]| ==> h[1..][i] == h[i + 1];
      r
  }

  function VisibleCloses(series: seq<Observation>, t: Instant): seq<Point> {
    if series == [] then []
    else
      var o := series[|series| - 1];
      VisibleCloses(series[..|series| - 1], t) + (if o.closeAt <= t then [Point(o.date, o.close)] else [])
  }

  function VisibleOpens(series: seq<Observation>, t: Instant): seq<Point> {
    if series == [] then []
    else
      var o := series[|series| - 1];
      VisibleOpens(series[..|series| - 1], t) + (if o.openAt <= t then [Point(o.date, o.open)] else [])
  }

  function ClosedBy(calendar: seq<MarketSession>, t: Instant): seq<Date> {
    if calendar == [] then []
    else
      var s := calendar[|calendar| - 1];
      ClosedBy(calendar[..|calendar| - 1], t) + (if s.closeAt <= t then [s.date] else [])
  }

  /** The availability-gated view: the only way prices are read at an evaluation instant. */
  function AsOf(d: DataSet, t: Instant): DataView {
    DataView(t, ClosedBy(d.calendar, t),
             map a | a in d.observations :: VisibleCloses(d.observations[a], t),
             map a | a in d.observations :: VisibleOpens(d.observations[a], t))
  }

  function NextSessionAfter(calendar: seq<MarketSession>, date: Date): (r: Option<MarketSession>)
    ensures r.None? <==> forall i :: 0 <= i < |calendar| ==> calendar[i].date <= date
    ensures r.Some? ==> r.value in calendar && r.value.date > date
  {
    if calendar == [] then None
    else if calendar[0].date > date then Some(calendar[0])
    else
      var r := NextSessionAfter(calendar[1..], date);
      assert forall i :: 0 <= i < |calendar[1..]| ==> calendar[1..][i] == calendar[i + 1];
      r
  }

  lemma {:induction false} NextSessionIsNext(calendar: seq<MarketSession>, k: nat)
    requires OrderedSessions(calendar) && k < |calendar|
    ensures NextSessionAfter(calendar, calendar[k].date)
         == if k + 1 < |calendar| then Some(calendar[k + 1]) else None
  {
    if k > 0 {
      NextSessionIsNext(calendar[1..], k - 1);
    } else if |calendar| > 1 {
      assert calendar[1..][0] == calendar[1];
    }
  }

  /* ---- what is visible ---- */

  /** o's close is knowable at t. */
  predicate CloseVisible(o: Observation, t: Instant) { o.closeAt <= t }

  lemma {:induction false} VisibleClosesMember(series: seq<Observation>, t: Instant, p: Point)
    ensures p in VisibleCloses(series, t)
        <==> exists i :: 0 <= i < |series| && CloseVisible(series[i], t) && p == Point(series[i].date, series[i].close)
  {
    if series != [] {
      var n := |series| - 1;
      VisibleClosesMember(series[..n], t, p);
      assert forall i :: 0 <= i < n ==> series[..n][i] == series[i];
      if p in VisibleCloses(series, t) {
        if p !in VisibleCloses(series[..n], t) {
          assert CloseVisible(series[n], t) && p == Point(series[n].date, series[n].close);
        }
      }
    }
  }

  lemma {:induction false} VisibleOpensMember(series: seq<Observation>, t: Instant, p: Point)
    ensures p in VisibleOpens(series, t)
        <==> exists i :: 0 <= i < |series| && series[i].openAt <= t && p == Point(series[i].date, series[i].open)
  {
    if series != [] {
      var n := |series| - 1;
      VisibleOpensMember(series[..n], t, p);
      assert forall i :: 0 <= i < n ==> series[..n][i] == series[i];
      if p in VisibleOpens(series, t) {
        if p !in VisibleOpens(series[..n], t) {
          assert series[n].openAt <= t && p == Point(series[n].date, series[n].open);
        }
      }
    }
  }

  /** Histories come out in strictly ascending date order. */
  lemma {:induction false} VisibleClosesAscend(series: seq<Observation>, t: Instant)
    requires forall i, j :: 0 <= i < j < |series| ==> series[i].date < series[j].date
    ensures AscendingDates(VisibleCloses(series, t))
  {
    if series != [] {
      var n := |series| - 1;
      var older := VisibleCloses(series[..n], t);
      VisibleClosesAscend(series[..n], t);
      forall i | 0 <= i < |older| ensures older[i].date < series[n].date {
        VisibleClosesMember(series[..n], t, older[i]);
      }
    }
  }

  lemma {:induction false} VisibleOpensAscend(series: seq<Observation>, t: Instant)
    requires forall i, j :: 0 <= i < j < |series| ==> series[i].date < series[j].date
    ensures AscendingDates(VisibleOpens(series, t))
  {
    if series != [] {
      var n := |series| - 1;
      var older := VisibleOpens(series[..n], t);
      VisibleOpensAscend(series[..n], t);
      forall i | 0 <= i < |older| ensures older[i].date < series[n].date {
        VisibleOpensMember(series[..n], t, older[i]);
      }
    }
  }

  /** Visibility is monotone: nothing that was knowable is ever taken back. */
  lemma VisibilityMonotone(d: DataSet, t: Instant, u: Instant, asset: Asset, p: Point)
    requires t <= u && p in AsOf(d, t).CloseHistory(asset)
    ensures p in AsOf(d, u).CloseHistory(asset)
  {
    VisibleClosesMember(d.observations[asset], t, p);
    VisibleClosesMember(d.observations[asset], u, p);
    var i :| 0 <= i < |d.observations[asset]| && CloseVisible(d.observations[asset][i], t)
             && p == Point(d.observations[asset][i].date, d.observations[asset][i].close);
    assert CloseVisible(d.observations[asset][i], u);
  }

  lemma {:induction false} ClosedByPrefix(calendar: seq<MarketSession>, t: Instant, n: nat)
    requires OrderedSessions(calendar) && n <= |calendar|
    requires forall i :: 0 <= i < n ==> calendar[i].closeAt <= t
    requires forall i :: n <= i < |calendar| ==> calendar[i].closeAt > t
    ensures |ClosedBy(calendar, t)| == n
    ensures forall i :: 0 <= i < n ==> ClosedBy(calendar, t)[i] == calendar[i].date
  {
    if calendar != [] {
      var m := |calendar| - 1;
      ClosedByPrefix(calendar[..m], t, if n > m then m else n);
    }
  }

  /** As the instant advances the visible sessions only grow at the end. */
  lemma ClosedByGrows(calendar: Calendar, t: Instant, u: Instant)
    requires t <= u
    ensures ClosedBy(calendar, t) <= ClosedBy(calendar, u)
  {
    var n := CountClosed(calendar, t);
    var m := CountClosed(calendar, u);
    ClosedByPrefix(calendar, t, n);
    ClosedByPrefix(calendar, u, m);
  }

  lemma {:induction false} CountClosed(calendar: seq<MarketSession>, t: Instant) returns (n: nat)
    requires OrderedSessions(calendar)
    ensures n <= |calendar|
    ensures forall i :: 0 <= i < n ==> calendar[i].closeAt <= t
    ensures forall i :: n <= i < |calendar| ==> calendar[i].closeAt > t
  {
    n := 0;
    while n < |calendar| && calendar[n].closeAt <= t
      invariant 0 <= n <= |calendar|
      invariant forall i :: 0 <= i < n ==> calendar[i].closeAt <= t
    {
      n := n + 1;
    }
    if n < |calendar| {
      forall i | n <= i < |calendar| ensures calendar[i].closeAt > t {
        if i > n { assert calendar[n].closeAt <= calendar[i].openAt; }
      }
    }
  }

  /** At the close of session k exactly the sessions up to it have closed. */
  lemma SessionsAt(d: DataSet, k: nat)
    requires k < |d.calendar|
    ensures var sessions := AsOf(d, d.calendar[k].closeAt).sessions;
      |sessions| == k + 1 && Ascending(sessions) && forall i :: 0 <= i <= k ==> sessions[i] == d.calendar[i].date
  {
    var t := d.calendar[k].closeAt;
    forall i | k + 1 <= i < |d.calendar| ensures d.calendar[i].closeAt > t {
      assert d.calendar[k].closeAt <= d.calendar[i].openAt;
    }
    forall i | 0 <= i < k + 1 ensures d.calendar[i].closeAt <= t {
      if i < k { assert d.calendar[i].closeAt <= d.calendar[k].openAt; }
    }
    ClosedByPrefix(d.calendar, t, k + 1);
  }
}
