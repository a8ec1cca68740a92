/** The slice of application state that gates the two analytics signals:
    the day each signal was last sent and the opportunity window in which the
    next signal without exposure may be sent. */
module Analytics {
  import opened Calendar
  import opened SwiftRange

  /** `OpportunityWindow.secondsInDay`, the default window length. */
  const SecondsInDay: real := 86400.0

  /** A span of time anchored at the first UTC midnight of `month`, moved by a
      signed `shift` and lasting `windowDuration` seconds. The initializer
      stores its arguments as given, with no clamping or validation; a window
      built without a duration lasts one day. */
  datatype OpportunityWindow = OpportunityWindow(
    month: CalendarMonth,
    shift: real,
    windowDuration: real := SecondsInDay)

  /** The instant at which the window opens. */
  function Start(w: OpportunityWindow, cal: CalendarOps): real {
    cal.utcStart(w.month) + w.shift
  }

  /** `OpportunityWindow.contains`: whether `date` lies in the window. A negative
      duration would make Swift trap on `start ..< finish`, so callers must not
      ask a window with one. */
  function Contains(w: OpportunityWindow, cal: CalendarOps, date: real): (b: bool)
    requires w.windowDuration >= 0.0
    ensures b <==> cal.utcStart(w.month) + w.shift <= date < cal.utcStart(w.month) + w.shift + w.windowDuration
    ensures b ==> w.windowDuration > 0.0
  {
    var start := cal.utcStart(w.month) + w.shift;
    var finish := start + w.windowDuration;
    var range: Range := Bounds(start, finish);
    RangeContains(range, date)
  }

  /** `OpportunityWindow.distantPast`: the "no window yet" value, a window of
      length zero anchored at the month of `Date.distantPast`. */
  function DistantPastWindow(cal: CalendarOps): (w: OpportunityWindow)
    ensures w.month == cal.utcCalendarMonth(cal.distantPast)
    ensures w.shift == 0.0 && w.windowDuration == 0.0
    ensures forall date :: !Contains(w, cal, date)
  {
    OpportunityWindow(cal.utcCalendarMonth(cal.distantPast), 0.0, 0.0)
  }

  /** The record itself. Outside code reads it and replaces its fields whole. */
  datatype AnalyticsState = AnalyticsState(
    eventWithExposureLastSent: CalendarDay,
    eventWithoutExposureLastSent: CalendarDay,
    eventWithoutExposureWindow: OpportunityWindow)

  /** A state whose window can be asked `Contains` without a trap. */
  predicate Valid(s: AnalyticsState) {
    s.eventWithoutExposureWindow.windowDuration >= 0.0
  }

  /** `AnalyticsState()`: neither signal has ever been sent and no window is open. */
  function DefaultState(cal: CalendarOps): (s: AnalyticsState)
    ensures s.eventWithExposureLastSent == cal.calendarDay(cal.distantPast)
    ensures s.eventWithoutExposureLastSent == cal.calendarDay(cal.distantPast)
    ensures s.eventWithoutExposureWindow == DistantPastWindow(cal)
    ensures Valid(s)
    ensures forall date :: !Contains(s.eventWithoutExposureWindow, cal, date)
  {
    AnalyticsState(
      cal.calendarDay(cal.distantPast),
      cal.calendarDay(cal.distantPast),
      DistantPastWindow(cal))
  }

  // ---------------------------------------------------------------------------
  // Construction

  /** The initializer keeps month, shift and duration as given, and the
      duration defaults to one day. */
  lemma InitStoresArguments(cal: CalendarOps, m: CalendarMonth, shift: real, duration: real)
    ensures OpportunityWindow(m, shift).windowDuration == SecondsInDay == 86400.0
    ensures var w := OpportunityWindow(m, shift, duration);
      w.month == m && w.shift == shift && w.windowDuration == duration
    ensures Start(OpportunityWindow(m, shift), cal) == cal.utcStart(m) + shift
  {
  }

  /** A negative shift is not clamped to the month start: the default one-day
      window then opens before its month does, and contains that instant. */
  lemma NegativeShiftOpensBeforeMonth(cal: CalendarOps, m: CalendarMonth, shift: real)
    requires shift < 0.0
    ensures Start(OpportunityWindow(m, shift), cal) < cal.utcStart(m)
    ensures Contains(OpportunityWindow(m, shift), cal, cal.utcStart(m) + shift)
  {
  }

  // ---------------------------------------------------------------------------
  // Bounds of the window

  /** A window that is not empty contains the instant it opens at. */
  lemma ContainsOwnStart(w: OpportunityWindow, cal: CalendarOps)
    requires w.windowDuration > 0.0
    ensures Contains(w, cal, Start(w, cal))
  {
  }

  /** A window of positive length contains every instant strictly before it
      closes, however close to the closing instant. */
  lemma ContainsUpToFinish(w: OpportunityWindow, cal: CalendarOps, epsilon: real)
    requires 0.0 < epsilon <= w.windowDuration
    ensures Contains(w, cal, Start(w, cal) + w.windowDuration - epsilon)
  {
  }

  /** The window never contains its closing instant, nor anything before it opens. */
  lemma ExcludesFinishAndEarlier(w: OpportunityWindow, cal: CalendarOps, date: real)
    requires w.windowDuration >= 0.0
    ensures !Contains(w, cal, Start(w, cal) + w.windowDuration)
    ensures date < Start(w, cal) ==> !Contains(w, cal, date)
  {
  }

  /** A window of length zero contains nothing. */
  lemma ZeroDurationIsEmpty(w: OpportunityWindow, cal: CalendarOps, date: real)
    requires w.windowDuration == 0.0
    ensures !Contains(w, cal, date)
  {
  }

  /** Some instant lies in a window exactly when its length is positive. */
  lemma InhabitedIffPositiveDuration(w: OpportunityWindow, cal: CalendarOps)
    requires w.windowDuration >= 0.0
    ensures (exists date :: Contains(w, cal, date)) <==> w.windowDuration > 0.0
  {
    if w.windowDuration > 0.0 {
      assert Contains(w, cal, Start(w, cal));
    }
  }

  // ---------------------------------------------------------------------------
  // Translation and splitting: consequences of the half-open test, not
  // operations of the source

  /** Moving the window and the instant by the same amount keeps the answer. */
  lemma TranslationInvariant(w: OpportunityWindow, cal: CalendarOps, k: real, date: real)
    requires w.windowDuration >= 0.0
    ensures Contains(w.(shift := w.shift + k), cal, date + k) == Contains(w, cal, date)
  {
  }

  /** Cutting a window at `a` seconds after it opens gives two windows, the first
      `a` seconds long and the second the rest, that together contain exactly
      what the whole does and never both contain the same instant. */
  lemma SplitAt(w: OpportunityWindow, cal: CalendarOps, a: real, date: real)
    requires 0.0 <= a <= w.windowDuration
    ensures var head := w.(windowDuration := a);
      var tail := w.(shift := w.shift + a, windowDuration := w.windowDuration - a);
      && (Contains(w, cal, date) <==> Contains(head, cal, date) || Contains(tail, cal, date))
      && !(Contains(head, cal, date) && Contains(tail, cal, date))
  {
  }

  /** The window `i` lengths of `w` after `w`, with the same length. */
  function Tile(w: OpportunityWindow, i: nat): OpportunityWindow {
    w.(shift := w.shift + (i as real) * w.windowDuration)
  }

  /** The window that opens with `w` and lasts `n` of its lengths. */
  function Stretched(w: OpportunityWindow, n: nat): (r: OpportunityWindow)
    requires w.windowDuration >= 0.0
    ensures r.windowDuration >= 0.0
  {
    NonNegativeProduct(n as real, w.windowDuration);
    w.(windowDuration := (n as real) * w.windowDuration)
  }

  lemma NonNegativeProduct(x: real, y: real)
    requires x >= 0.0 && y >= 0.0
    ensures x * y >= 0.0
  {
  }

  lemma ProductStep(x: real, y: real)
    ensures (x + 1.0) * y == x * y + y
  {
  }

  /** The first `n` lengths of `w` end with the first `n - 1` lengths followed
      by tile `n - 1`. */
  lemma StretchedEndsWithTile(w: OpportunityWindow, n: nat)
    requires w.windowDuration >= 0.0 && n > 0
    ensures var prefix := ((n - 1) as real) * w.windowDuration;
      var whole := Stretched(w, n);
      && 0.0 <= prefix <= whole.windowDuration
      && whole.(windowDuration := prefix) == Stretched(w, n - 1)
      && whole.(shift := w.shift + prefix, windowDuration := whole.windowDuration - prefix) == Tile(w, n - 1)
  {
    NonNegativeProduct((n - 1) as real, w.windowDuration);
    ProductStep((n - 1) as real, w.windowDuration);
    assert (n - 1) as real + 1.0 == n as real;
  }

  /** A window `n` lengths long contains an instant exactly when one of the
      `n` back-to-back windows of the original length does. */
  lemma {:induction false} StretchedIsUnionOfTiles(w: OpportunityWindow, cal: CalendarOps, n: nat, date: real)
    requires w.windowDuration >= 0.0
    ensures Contains(Stretched(w, n), cal, date) <==> exists i :: 0 <= i < n && Contains(Tile(w, i), cal, date)
  {
    if n == 0 {
      assert Stretched(w, 0).windowDuration == 0.0;
    } else {
      StretchedIsUnionOfTiles(w, cal, n - 1, date);
      StretchedEndsWithTile(w, n);
      SplitAt(Stretched(w, n), cal, ((n - 1) as real) * w.windowDuration, date);
      if Contains(Tile(w, n - 1), cal, date) {
        assert exists i :: 0 <= i < n && Contains(Tile(w, i), cal, date);
      }
    }
  }

  /** Two different back-to-back windows of the same length never share an
      instant: the closing instant of one is the opening instant of the next
      and belongs to the next only. */
  lemma TilesDisjoint(w: OpportunityWindow, cal: CalendarOps, i: nat, j: nat, date: real)
    requires w.windowDuration >= 0.0
    requires i < j
    ensures !(Contains(Tile(w, i), cal, date) && Contains(Tile(w, j), cal, date))
  {
    var d := w.windowDuration;
    assert (j as real) * d - (i as real) * d == ((j - i) as real) * d;
    NonNegativeProduct(((j - i - 1) as real), d);
    assert ((j - i) as real) * d == ((j - i - 1) as real) * d + d;
  }

  // ---------------------------------------------------------------------------
  // Worked examples

  /** A window opening one hour into the month and lasting two hours. */
  lemma HourShiftScenario(cal: CalendarOps, m: CalendarMonth)
    ensures var w := OpportunityWindow(m, 3600.0, 7200.0);
      var t0 := cal.utcStart(m);
      && Contains(w, cal, t0 + 3600.0)
      && Contains(w, cal, t0 + 5000.0)
      && !Contains(w, cal, t0 + 10800.0)
      && !Contains(w, cal, t0)
  {
  }

  /** A one-day window moved 100 seconds before its month starts. */
  lemma NegativeShiftScenario(cal: CalendarOps, m: CalendarMonth)
    ensures var w := OpportunityWindow(m, -100.0, 86400.0);
      var t0 := cal.utcStart(m);
      && Contains(w, cal, t0 - 50.0)
      && !Contains(w, cal, t0 - 100.0 + 86400.0)
  {
  }
}
