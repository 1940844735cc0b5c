/**
  * The index arithmetic of the three forecast views, static/css/js/main.js:318-372.
  * A view is modelled as the values it shows; an entry read past the end of
  * its array (`undefined` in the browser) is `None`.
  */
module Render {
  import opened Wrappers
  import opened Forecast

  /** `Math.round`: the nearest integer, halves rounded up. */
  function Round(x: real): (r: int)
    ensures r as real - 0.5 <= x < r as real + 0.5
  {
    (x + 0.5).Floor
  }

  /** `s[i]`, or `None` when `i` is not an index of `s`. */
  function At<T>(s: seq<T>, i: int): (r: Option<T>)
    ensures r.Some? <==> 0 <= i < |s|
    ensures r.Some? ==> r.value == s[i]
  {
    if 0 <= i < |s| then Some(s[i]) else None
  }

  function RoundAt(s: seq<real>, i: int): Option<int> {
    if 0 <= i < |s| then Some(Round(s[i])) else None
  }

  /**
    * A soil reading, or `None` for the dash shown when the series is absent,
    * too short, or holds `null` at that hour.
    */
  function SoilAt(series: Option<seq<Option<real>>>, i: int): (r: Option<real>)
    ensures r.Some? <==> series.Some? && 0 <= i < |series.value| && series.value[i].Some?
    ensures series.Some? && 0 <= i < |series.value| ==> r == series.value[i]
  {
    if series.Some? && 0 <= i < |series.value| then series.value[i] else None
  }

  /** What the current-conditions view shows. */
  datatype CurrentView = CurrentView(place: string, time: Option<string>, temperature: Option<int>,
                                     humidity: Option<real>, precipitation: Option<real>,
                                     soilTemp0: Option<real>, soilTemp6: Option<real>,
                                     soilMoist0: Option<real>, soilMoist1: Option<real>)

  /** `renderCurrent` (lines 318-334): every reading is taken at the last hourly index. */
  function RenderCurrent(h: Hourly, place: string): (v: CurrentView)
    ensures v.place == place
    ensures v.time.Some? <==> |h.time| > 0
    ensures |h.time| > 0 ==> v.time == Some(h.time[|h.time| - 1])
  {
    var idx := |h.time| - 1;
    CurrentView(place, At(h.time, idx), RoundAt(h.temperature, idx), At(h.humidity, idx),
                At(h.precipitation, idx), SoilAt(h.soilTemp0, idx), SoilAt(h.soilTemp6, idx),
                SoilAt(h.soilMoist0, idx), SoilAt(h.soilMoist1, idx))
  }

  /** The service's arrays all have one entry per hour of `time`. */
  predicate Aligned(h: Hourly) {
    && |h.temperature| == |h.time| && |h.humidity| == |h.time| && |h.precipitation| == |h.time|
    && (h.soilTemp0.Some? ==> |h.soilTemp0.value| == |h.time|)
    && (h.soilTemp6.Some? ==> |h.soilTemp6.value| == |h.time|)
    && (h.soilMoist0.Some? ==> |h.soilMoist0.value| == |h.time|)
    && (h.soilMoist1.Some? ==> |h.soilMoist1.value| == |h.time|)
  }

  /**
    * With aligned, non-empty arrays the current view shows the last hour's
    * readings, rounded temperature within half a degree; each soil value is
    * the series' last reading, a dash when that reading is `null`, and a dash
    * when the series was not sent.
    */
  lemma CurrentViewOfAligned(h: Hourly, place: string)
    requires Aligned(h) && |h.time| > 0
    ensures var v := RenderCurrent(h, place);
      var last := |h.time| - 1;
      && v.place == place
      && v.time == Some(h.time[last])
      && v.temperature.Some?
      && v.temperature.value as real - 0.5 <= h.temperature[last] < v.temperature.value as real + 0.5
      && v.humidity == Some(h.humidity[last]) && v.precipitation == Some(h.precipitation[last])
      && (h.soilTemp0.None? ==> v.soilTemp0.None?) && (h.soilTemp0.Some? ==> v.soilTemp0 == h.soilTemp0.value[last])
      && (h.soilTemp6.None? ==> v.soilTemp6.None?) && (h.soilTemp6.Some? ==> v.soilTemp6 == h.soilTemp6.value[last])
      && (h.soilMoist0.None? ==> v.soilMoist0.None?) && (h.soilMoist0.Some? ==> v.soilMoist0 == h.soilMoist0.value[last])
      && (h.soilMoist1.None? ==> v.soilMoist1.None?) && (h.soilMoist1.Some? ==> v.soilMoist1 == h.soilMoist1.value[last])
  {
  }

  /** With no hourly entries nothing is read: every value is missing. */
  lemma CurrentViewOfEmpty(h: Hourly, place: string)
    requires |h.time| == 0
    ensures var v := RenderCurrent(h, place);
      v.time.None? && v.temperature.None? && v.humidity.None? && v.precipitation.None?
  {
  }

  datatype DayCard = DayCard(date: string, maxTemp: Option<int>)

  /** `renderDaily` (lines 336-351): one card per day for the first `min(7, len)` days. */
  method RenderDaily(d: Daily) returns (cards: seq<DayCard>)
    ensures |cards| == Min(7, |d.time|)
    ensures forall i :: 0 <= i < |cards| ==> cards[i] == DayCard(d.time[i], RoundAt(d.maxTemp, i))
  {
    cards := [];
    var i := 0;
    while i < Min(7, |d.time|)
      invariant 0 <= i <= Min(7, |d.time|)
      invariant |cards| == i
      invariant forall k :: 0 <= k < i ==> cards[k] == DayCard(d.time[k], RoundAt(d.maxTemp, k))
    {
      cards := cards + [DayCard(d.time[i], RoundAt(d.maxTemp, i))];
      i := i + 1;
    }
  }

  datatype HourCard = HourCard(time: string, temperature: Option<int>, humidity: Option<real>,
                               precipitation: Option<real>)

  function HourCardAt(h: Hourly, i: nat): HourCard
    requires i < |h.time|
  {
    HourCard(h.time[i], RoundAt(h.temperature, i), At(h.humidity, i), At(h.precipitation, i))
  }

  /** First index of the hourly strip when hour `now` is the current one. */
  function WindowStart(now: int): nat {
    Max(0, now - 1)
  }

  /** End (exclusive) of the hourly strip: at most 24 entries from the start. */
  function WindowEnd(now: int, n: nat): int {
    Min(n, WindowStart(now) + 24)
  }

  /**
    * The strip of hours for current hour `now`: from the hour before it, every
    * third hour up to 24 entries on, never past the end of the arrays. It
    * returns the indices it read and the cards built from them.
    */
  method RenderHourlyFrom(h: Hourly, now: int) returns (hours: seq<nat>, cards: seq<HourCard>)
    ensures var start := WindowStart(now);
      var end := WindowEnd(now, |h.time|);
      && |hours| == (if end <= start then 0 else (end - start + 2) / 3)
      && (forall k :: 0 <= k < |hours| ==> hours[k] == start + 3 * k && hours[k] < end)
    ensures |hours| <= 8
    ensures forall k :: 0 <= k < |hours| ==> hours[k] < |h.time|
    ensures |cards| == |hours|
    ensures forall k :: 0 <= k < |hours| ==> cards[k] == HourCardAt(h, hours[k])
  {
    var start := WindowStart(now);
    var end := WindowEnd(now, |h.time|);
    hours, cards := [], [];
    var i := start;
    while i < end
      invariant start <= i
      invariant i - start == 3 * |hours|
      invariant end <= start ==> i == start
      invariant end > start ==> i <= end + 2
      invariant forall k :: 0 <= k < |hours| ==> hours[k] == start + 3 * k && hours[k] < end
      invariant |cards| == |hours|
      invariant forall k :: 0 <= k < |hours| ==> cards[k] == HourCardAt(h, hours[k])
      decreases end - i
    {
      hours := hours + [i];
      cards := cards + [HourCardAt(h, i)];
      i := i + 3;
    }
  }

  /** `renderHourly` (lines 353-372): the strip with the last hourly index taken as the current hour. */
  method RenderHourly(h: Hourly) returns (hours: seq<nat>, cards: seq<HourCard>)
    ensures |hours| == (if |h.time| == 0 then 0 else 1)
    ensures |h.time| > 0 ==> hours == [Max(0, |h.time| - 2)]
    ensures |cards| == |hours|
    ensures forall k :: 0 <= k < |hours| ==> cards[k] == HourCardAt(h, hours[k])
  {
    hours, cards := RenderHourlyFrom(h, |h.time| - 1);
  }

  /**
    * When the current hour lies a day or more before the end of the forecast,
    * the strip has all eight cards: hours now-1, now+2, ..., now+20.
    */
  lemma FullStrip(n: nat, now: int)
    requires 1 <= now && now + 23 <= n
    ensures WindowEnd(now, n) - WindowStart(now) == 24
    ensures (WindowEnd(now, n) - WindowStart(now) + 2) / 3 == 8
  {
  }
}
