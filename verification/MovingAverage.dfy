/** The memoised moving average: quantize/nodes/transform.py with EvaluationMemo of quantize/runtime/binding.py. */
module MovingAverage {
  import opened Collections
  import opened Market

  /* ---- the memo-free meaning ---- */

  /** dict(history). */
  function Dict(h: seq<Point>): (m: map<Date, real>)
    ensures forall d :: d in m ==> Point(d, m[d]) in h
    ensures forall p :: p in h ==> p.date in m
  {
    if h == [] then map[]
    else
      var last := h[|h| - 1];
      assert forall p :: p in h <==> p in h[..|h| - 1] || p == last;
      Dict(h[..|h| - 1])[last.date := last.value]
  }

  /** The sum over the given dates, if every one of them has a value. */
  function SumOver(history: map<Date, real>, dates: seq<Date>): Option<real> {
    if dates == [] then Some(0.0)
    else
      var last := dates[|dates| - 1];
      match SumOver(history, dates[..|dates| - 1])
      case Some(total) => if last in history then Some(total + history[last]) else None
      case None => None
  }

  /** The mean of the window that ends at session index, if the window is complete. */
  function MeanAt(history: map<Date, real>, sessions: seq<Date>, window: nat, index: nat): Option<real>
    requires 1 <= window <= index + 1 <= |sessions|
  {
    match SumOver(history, sessions[index + 1 - window..index + 1])
    case Some(total) => Some(total / (window as real))
    case None => None
  }

  /** The averages of the first n sessions: no point where the window lacks an observation. */
  function Averages(history: map<Date, real>, sessions: seq<Date>, window: nat, n: nat): (r: seq<Point>)
    requires window >= 1 && n <= |sessions|
  {
    if n < window then []
    else
      Averages(history, sessions, window, n - 1)
      + (match MeanAt(history, sessions, window, n - 1)
         case Some(v) => [Point(sessions[n - 1], v)]
         case None => [])
  }

  function Average(history: seq<Point>, sessions: seq<Date>, window: nat): seq<Point>
    requires window >= 1
  {
    Averages(Dict(history), sessions, window, |sessions|)
  }

  /** A window is at least one session. */
  type WindowLength = w: nat | w >= 1 witness 1

  /** The average of the average of ... of a history. */
  function Chained(history: seq<Point>, sessions: seq<Date>, windows: seq<WindowLength>): seq<Point> {
    if windows == [] then history
    else Average(Chained(history, sessions, windows[..|windows| - 1]), sessions, windows[|windows| - 1])
  }

  /* ---- the memo ---- */

  /** A cached point is the mean its window still has. */
  ghost predicate SlotAgrees(slot: map<Date, real>, history: map<Date, real>, sessions: seq<Date>, window: nat)
    requires window >= 1
  {
    AgreesBelow(slot, history, sessions, window, |sessions|)
  }

  /** The cached days are sessions, so that agreement survives new sessions. */
  ghost predicate SlotWithin(slot: map<Date, real>, sessions: seq<Date>, window: nat)
    requires window >= 1
  {
    forall day :: day in slot ==> exists i :: window - 1 <= i < |sessions| && sessions[i] == day
  }

  /** One asset's loop with a cache: replay what is cached, compute and store the rest. */
  function Replayed(history: map<Date, real>, sessions: seq<Date>, window: nat, slot: map<Date, real>, n: nat): (seq<Point>, map<Date, real>)
    requires window >= 1 && n <= |sessions|
  {
    if n < window then ([], slot)
    else
      var (points, cache) := Replayed(history, sessions, window, slot, n - 1);
      var day := sessions[n - 1];
      if day in cache then (points + [Point(day, cache[day])], cache)
      else match MeanAt(history, sessions, window, n - 1)
           case Some(v) => (points + [Point(day, v)], cache[day := v])
           case None => (points, cache)
  }

  /** v is the mean of the window ending at one of the first n sessions, the one dated day. */
  ghost predicate ComputedAt(history: map<Date, real>, sessions: seq<Date>, window: nat, n: nat, day: Date, v: real)
    requires window >= 1 && n <= |sessions|
  {
    exists i :: window - 1 <= i < n && sessions[i] == day && MeanAt(history, sessions, window, i) == Some(v)
  }

  lemma ComputedLater(history: map<Date, real>, sessions: seq<Date>, window: nat, n: nat, day: Date, v: real)
    requires 1 <= window <= n <= |sessions|
    ensures ComputedAt(history, sessions, window, n - 1, day, v) ==> ComputedAt(history, sessions, window, n, day, v)
    ensures sessions[n - 1] == day && MeanAt(history, sessions, window, n - 1) == Some(v)
      ==> ComputedAt(history, sessions, window, n, day, v)
    ensures ComputedAt(history, sessions, window, n, day, v)
      ==> ComputedAt(history, sessions, window, n - 1, day, v)
          || (sessions[n - 1] == day && MeanAt(history, sessions, window, n - 1) == Some(v))
  {
    hide MeanAt;
  }

  lemma {:induction false} ReplayedCache(history: map<Date, real>, sessions: seq<Date>, window: nat, slot: map<Date, real>, n: nat)
    requires window >= 1 && n <= |sessions|
    ensures var cache := Replayed(history, sessions, window, slot, n).1;
      && (forall day :: day in slot ==> day in cache && cache[day] == slot[day])
      && (forall day :: day in cache && day !in slot ==> ComputedAt(history, sessions, window, n, day, cache[day]))
  {
    hide MeanAt, ComputedAt;
    if n >= window {
      ReplayedCache(history, sessions, window, slot, n - 1);
      var cache' := Replayed(history, sessions, window, slot, n).1;
      forall day | day in cache' && day !in slot ensures ComputedAt(history, sessions, window, n, day, cache'[day]) {
        ComputedLater(history, sessions, window, n, day, cache'[day]);
      }
    }
  }

  /** Every cached point among the first n sessions is what its window has. */
  ghost predicate AgreesBelow(slot: map<Date, real>, history: map<Date, real>, sessions: seq<Date>, window: nat, n: nat)
    requires window >= 1 && n <= |sessions|
  {
    forall i :: window - 1 <= i < n && sessions[i] in slot ==>
      MeanAt(history, sessions, window, i) == Some(slot[sessions[i]])
  }

  function Snoc(points: seq<Point>, day: Date, v: Option<real>): seq<Point> {
    match v
    case Some(x) => points + [Point(day, x)]
    case None => points
  }

  ghost predicate EndsAt(points: seq<Point>, day: Date) {
    points != [] && points[|points| - 1].date == day
  }

  ghost predicate AllBefore(points: seq<Point>, day: Date) {
    forall i :: 0 <= i < |points| ==> points[i].date < day
  }

  lemma SnocEnds(a: seq<Point>, day: Date, u: Option<real>)
    requires AllBefore(a, day)
    ensures EndsAt(Snoc(a, day, u), day) <==> u.Some?
  {
  }

  /** Appending a later day: equal results come from equal parts only. */
  lemma SnocEqual(a: seq<Point>, b: seq<Point>, day: Date, u: Option<real>, v: Option<real>)
    requires AllBefore(a, day) && AllBefore(b, day)
    ensures Snoc(a, day, u) == Snoc(b, day, v) <==> a == b && u == v
  {
    SnocEnds(a, day, u);
    SnocEnds(b, day, v);
    var s, t := Snoc(a, day, u), Snoc(b, day, v);
    if s == t && u.Some? && v.Some? {
      assert s[..|s| - 1] == a && t[..|t| - 1] == b;
      assert s[|s| - 1] == Point(day, u.value) && t[|t| - 1] == Point(day, v.value);
    }
  }

  lemma {:induction false} ReplayedBefore(history: map<Date, real>, sessions: seq<Date>, window: nat, slot: map<Date, real>, n: nat, day: Date)
    requires window >= 1 && n <= |sessions| && forall i :: 0 <= i < n ==> sessions[i] < day
    ensures AllBefore(Replayed(history, sessions, window, slot, n).0, day)
    ensures AllBefore(Averages(history, sessions, window, n), day)
  {
    hide MeanAt;
    if n >= window {
      ReplayedBefore(history, sessions, window, slot, n - 1, day);
    }
  }

  /** The exact condition: a cache is invisible if and only if every cached point is the mean of its window. */
  lemma {:induction false} ReplayExactIff(history: map<Date, real>, sessions: seq<Date>, window: nat, slot: map<Date, real>, n: nat)
    requires window >= 1 && n <= |sessions| && Ascending(sessions)
    ensures Replayed(history, sessions, window, slot, n).0 == Averages(history, sessions, window, n)
      <==> AgreesBelow(slot, history, sessions, window, n)
  {
    hide MeanAt, AllBefore;
    if n >= window {
      ReplayExactIff(history, sessions, window, slot, n - 1);
      var day := sessions[n - 1];
      ReplayedBefore(history, sessions, window, slot, n - 1, day);
      CachedOnlyBefore(history, sessions, window, slot, n);
      var (points, cache) := Replayed(history, sessions, window, slot, n - 1);
      var mean := MeanAt(history, sessions, window, n - 1);
      SnocEqual(points, Averages(history, sessions, window, n - 1), day, if day in cache then Some(cache[day]) else mean, mean);
    }
  }

  /** Replaying earlier sessions neither adds nor changes the entry of the next one. */
  lemma CachedOnlyBefore(history: map<Date, real>, sessions: seq<Date>, window: nat, slot: map<Date, real>, n: nat)
    requires 1 <= window <= n <= |sessions| && Ascending(sessions)
    ensures var cache, day := Replayed(history, sessions, window, slot, n - 1).1, sessions[n - 1];
      (day in cache <==> day in slot) && (day in slot ==> cache[day] == slot[day])
  {
    hide MeanAt;
    ReplayedCache(history, sessions, window, slot, n - 1);
  }

  lemma {:induction false} AveragesDates(history: map<Date, real>, sessions: seq<Date>, window: nat, n: nat)
    requires window >= 1 && n <= |sessions| && Ascending(sessions)
    ensures AscendingDates(Averages(history, sessions, window, n))
  {
    hide MeanAt;
    if n >= window {
      AveragesDates(history, sessions, window, n - 1);
      ReplayedBefore(history, sessions, window, map[], n - 1, sessions[n - 1]);
    }
  }

  /* ---- monotone sources ---- */

  /** Everything the earlier history had is still there. */
  ghost predicate Extends(later: map<Date, real>, earlier: map<Date, real>) {
    forall d :: d in earlier ==> d in later && later[d] == earlier[d]
  }

  lemma {:induction false} SumOverExtends(earlier: map<Date, real>, later: map<Date, real>, dates: seq<Date>)
    requires Extends(later, earlier)
    ensures SumOver(earlier, dates).Some? ==> SumOver(later, dates) == SumOver(earlier, dates)
  {
    if dates != [] {
      SumOverExtends(earlier, later, dates[..|dates| - 1]);
    }
  }

  lemma MeanAtExtends(earlier: map<Date, real>, later: map<Date, real>, s: seq<Date>, t: seq<Date>, window: nat, i: nat)
    requires Extends(later, earlier) && s <= t && 1 <= window <= i + 1 <= |s|
    ensures MeanAt(earlier, s, window, i).Some? ==> MeanAt(later, t, window, i) == MeanAt(earlier, s, window, i)
  {
    assert s[i + 1 - window..i + 1] == t[i + 1 - window..i + 1];
    SumOverExtends(earlier, later, s[i + 1 - window..i + 1]);
  }

  /** A cache that agreed once agrees for ever after, as long as the source only grows. */
  lemma SlotStaysValid(slot: map<Date, real>, earlier: map<Date, real>, later: map<Date, real>, s: seq<Date>, t: seq<Date>, window: nat)
    requires window >= 1 && Ascending(t) && s <= t && Extends(later, earlier)
    requires SlotAgrees(slot, earlier, s, window) && SlotWithin(slot, s, window)
    ensures SlotAgrees(slot, later, t, window) && SlotWithin(slot, t, window)
  {
    forall i | window - 1 <= i < |t| && t[i] in slot ensures MeanAt(later, t, window, i) == Some(slot[t[i]]) {
      var day := t[i];
      var j :| window - 1 <= j < |s| && s[j] == day;
      assert t[j] == day;
      assert i == j;
      MeanAtExtends(earlier, later, s, t, window, i);
    }
    forall day | day in slot ensures exists i :: window - 1 <= i < |t| && t[i] == day {
      var j :| window - 1 <= j < |s| && s[j] == day;
      assert t[j] == day;
    }
  }

  /** An average of a growing source is again a growing source, so averages of averages are covered too. */
  lemma AveragesExtend(earlier: map<Date, real>, later: map<Date, real>, s: seq<Date>, t: seq<Date>, window: nat)
    requires window >= 1 && s <= t && Ascending(t) && Extends(later, earlier)
    ensures Extends(Dict(Averages(later, t, window, |t|)), Dict(Averages(earlier, s, window, |s|)))
  {
    var a, b := Averages(earlier, s, window, |s|), Averages(later, t, window, |t|);
    assert Ascending(s);
    AveragesDates(later, t, window, |t|);
    forall d | d in Dict(a) ensures d in Dict(b) && Dict(b)[d] == Dict(a)[d] {
      var p := Point(d, Dict(a)[d]);
      AveragesMember(earlier, s, window, |s|, p);
      var i :| window - 1 <= i < |s| && s[i] == p.date && MeanAt(earlier, s, window, i) == Some(p.value);
      MeanAtExtends(earlier, later, s, t, window, i);
      assert t[i] == p.date;
      AveragesMember(later, t, window, |t|, p);
      DictAscending(b, p);
    }
  }

  lemma {:induction false} AveragesMember(history: map<Date, real>, sessions: seq<Date>, window: nat, n: nat, p: Point)
    requires window >= 1 && n <= |sessions|
    ensures p in Averages(history, sessions, window, n)
      <==> exists i :: window - 1 <= i < n && sessions[i] == p.date && MeanAt(history, sessions, window, i) == Some(p.value)
  {
    hide Averages, MeanAt;
    AveragesLast(history, sessions, window, n, p);
    if n >= window {
      AveragesMember(history, sessions, window, n - 1, p);
      if p in Averages(history, sessions, window, n) && p !in Averages(history, sessions, window, n - 1) {
        assert sessions[n - 1] == p.date && MeanAt(history, sessions, window, n - 1) == Some(p.value);
      }
    }
  }

  lemma AveragesLast(history: map<Date, real>, sessions: seq<Date>, window: nat, n: nat, p: Point)
    requires window >= 1 && n <= |sessions|
    ensures n < window ==> Averages(history, sessions, window, n) == []
    ensures n >= window ==> (p in Averages(history, sessions, window, n) <==>
      p in Averages(history, sessions, window, n - 1) || (sessions[n - 1] == p.date && MeanAt(history, sessions, window, n - 1) == Some(p.value)))
  {
    hide MeanAt;
  }

  lemma DictAscending(h: seq<Point>, p: Point)
    requires AscendingDates(h) && p in h
    ensures p.date in Dict(h) && Dict(h)[p.date] == p.value
  {
    var q := Point(p.date, Dict(h)[p.date]);
    assert q in h;
    var i :| 0 <= i < |h| && h[i] == p;
    var j :| 0 <= j < |h| && h[j] == q;
  }

  /** Without growth the cache shows through: a revised observation is not seen by the replay. */
  lemma RevisedSeriesIsNotTransparent()
    ensures var s := [0];
      var first, revised := map[0 := 1.0], map[0 := 2.0];
      var cache := Replayed(first, s, 1, map[], 1).1;
      Ascending(s) && !Extends(revised, first)
      && Replayed(revised, s, 1, cache, 1).0 != Averages(revised, s, 1, 1)
  {
    var s := [0];
    var first, revised := map[0 := 1.0], map[0 := 2.0];
    assert s[0..1] == [0] && [0][..0] == [];
    assert SumOver(first, []) == Some(0.0) && SumOver(revised, []) == Some(0.0);
    assert SumOver(first, [0]) == Some(1.0) && SumOver(revised, [0]) == Some(2.0);
    assert MeanAt(first, s, 1, 0) == Some(1.0) && MeanAt(revised, s, 1, 0) == Some(2.0);
    var cache := Replayed(first, s, 1, map[], 1).1;
    assert Replayed(first, s, 1, map[], 0) == ([], map[]);
    assert cache == map[0 := 1.0];
    assert Replayed(revised, s, 1, cache, 0) == ([], cache);
    assert Replayed(revised, s, 1, cache, 1).0 == [Point(0, 1.0)];
    assert Averages(revised, s, 1, 1) == [] + [Point(0, 2.0)];
    assert [Point(0, 1.0)][0] != [Point(0, 2.0)][0];
  }
}
