/**
 * The series windowing of `components/performanceChart.js`: the table of
 * lookback ranges and the `filteredData` computation, which keeps the points
 * of the selected time span and then thins them out to about one point per
 * pixel of the chart's width.
 */
module PerformanceChart {
  import opened Wrappers

  /** The selectable time spans: 1D, 1W, 1M, 1Y and ALL. */
  datatype Span = OneDay | OneWeek | OneMonth | OneYear | All

  /** The `ranges` table: the lookback of each span in milliseconds; ALL has none. */
  function RangeMs(span: Span): (r: Option<int>)
    ensures r.None? <==> span == All
    ensures span == OneDay ==> r == Some(86_400_000)
    ensures span == OneWeek ==> r == Some(604_800_000)
    ensures span == OneMonth ==> r == Some(2_592_000_000)
    ensures span == OneYear ==> r == Some(31_536_000_000)
  {
    match span
    case OneDay => Some(24 * 60 * 60 * 1000)
    case OneWeek => Some(7 * 24 * 60 * 60 * 1000)
    case OneMonth => Some(30 * 24 * 60 * 60 * 1000)
    case OneYear => Some(365 * 24 * 60 * 60 * 1000)
    case All => None
  }

  /** An input point: a timestamp in milliseconds and a value that may be missing. */
  datatype Point = Point(timestamp: int, value: Option<int>)

  /** A point handed to the chart: the value is always present. */
  datatype ChartPoint = ChartPoint(value: int, timestamp: int)

  /** `{ value: d.value || 0, timestamp: d.timestamp }`: a falsy value (missing or 0) becomes 0. */
  function Plot(p: Point): (c: ChartPoint)
    ensures c.timestamp == p.timestamp
    ensures c.value == p.value.GetOr(0)
  {
    ChartPoint(if p.value.Some? && p.value.value != 0 then p.value.value else 0, p.timestamp)
  }

  function PlotAll(s: seq<Point>): seq<ChartPoint>
  {
    seq(|s|, k requires 0 <= k < |s| => Plot(s[k]))
  }

  /** The points at or after `cutoff`, in their original order. */
  function Since(s: seq<Point>, cutoff: int): (r: seq<Point>)
    ensures |r| <= |s|
    ensures forall p :: p in r <==> p in s && p.timestamp >= cutoff
  {
    if s == [] then []
    else (if s[0].timestamp >= cutoff then [s[0]] else []) + Since(s[1..], cutoff)
  }

  /** The range filter: everything for ALL, otherwise the points within the span's lookback from now. */
  function InRange(data: seq<Point>, span: Span, nowMs: int): (r: seq<Point>)
    ensures |r| <= |data|
    ensures span == All ==> r == data
    ensures span != All ==> forall p :: p in r <==> p in data && p.timestamp >= nowMs - RangeMs(span).value
  {
    if span == All then data else Since(data, nowMs - RangeMs(span).value)
  }

  /** `Math.ceil(a / b)` for a non-negative `a` and a positive `b`. */
  function CeilDiv(a: nat, b: nat): (c: nat)
    requires b > 0
    ensures b * (c - 1) < a <= b * c
  {
    var q := (a + b - 1) / b;
    assert a + b - 1 == b * q + (a + b - 1) % b;
    q
  }

  /** `s.filter((_, index) => index % step === 0)`: the elements at positions 0, step, 2 * step, ... */
  function EveryNth<T>(s: seq<T>, step: nat): (r: seq<T>)
    requires step > 0
    ensures |r| <= |s|
    ensures forall x :: x in r ==> x in s
    ensures s != [] ==> r != [] && r[0] == s[0]
    decreases |s|
  {
    if s == [] then []
    else EveryNth(s[..|s| - 1], step) + (if (|s| - 1) % step == 0 then [s[|s| - 1]] else [])
  }

  /** The points that `filteredData` keeps, before their values are defaulted. */
  function Selected(data: seq<Point>, span: Span, nowMs: int, windowWidth: int): seq<Point>
    requires |InRange(data, span, nowMs)| > 2 ==> windowWidth > 50
  {
    var filtered := InRange(data, span, nowMs);
    if |filtered| <= 2 then filtered
    else EveryNth(filtered, CeilDiv(|filtered|, windowWidth - 50))
  }

  /** `filteredData`: the series the chart draws for the given data, span, clock and window width. */
  function FilteredData(data: seq<Point>, span: Span, nowMs: int, windowWidth: int): (out: seq<ChartPoint>)
    requires |InRange(data, span, nowMs)| > 2 ==> windowWidth > 50
    ensures |out| <= |data|
    ensures data == [] ==> out == []
    ensures |InRange(data, span, nowMs)| <= 2 ==> |out| == |InRange(data, span, nowMs)|
    ensures |InRange(data, span, nowMs)| > 2 ==> out != [] && out[0] == Plot(InRange(data, span, nowMs)[0])
    ensures forall c :: c in out ==> exists p :: p in data && c == Plot(p)
  {
    SelectedFromData(data, span, nowMs, windowWidth);
    PlotAll(Selected(data, span, nowMs, windowWidth))
  }

  /** Every kept point is an input point, and a drawn point is the drawing of a kept point. */
  lemma SelectedFromData(data: seq<Point>, span: Span, nowMs: int, windowWidth: int)
    requires |InRange(data, span, nowMs)| > 2 ==> windowWidth > 50
    ensures forall x :: x in Selected(data, span, nowMs, windowWidth) ==> x in data
    ensures forall c :: c in PlotAll(Selected(data, span, nowMs, windowWidth)) ==> exists p :: p in data && c == Plot(p)
  {
    var sel := Selected(data, span, nowMs, windowWidth);
    var out := PlotAll(sel);
    forall c | c in out
      ensures exists p :: p in data && c == Plot(p)
    {
      var k :| 0 <= k < |out| && out[k] == c;
      assert sel[k] in sel;
    }
  }

  // ---------------------------------------------------------------------------
  // Ceiling division

  lemma MulMono(b: int, x: int, y: int)
    requires b >= 0 && x <= y
    ensures b * x <= b * y
  {
    assert b * y - b * x == b * (y - x);
  }

  lemma MulStrict(b: int, x: int, y: int)
    requires b > 0 && x < y
    ensures x * b < y * b
  {
    MulMono(b, x + 1, y);
    assert b * (x + 1) == b * x + b;
  }

  /** `CeilDiv(a, b)` is the only number with `b * (c - 1) < a <= b * c`. */
  lemma CeilDivUnique(a: nat, b: nat, c: int)
    requires b > 0 && b * (c - 1) < a <= b * c
    ensures c == CeilDiv(a, b)
  {
    var d := CeilDiv(a, b);
    if c < d {
      MulMono(b, c, d - 1);
    } else if c > d {
      MulMono(b, d, c - 1);
    }
  }

  /** Counting one more position adds one multiple of `b` exactly when the new position is one. */
  lemma CeilDivNext(m: nat, b: nat)
    requires b > 0
    ensures m % b == 0 ==> CeilDiv(m, b) * b == m && CeilDiv(m + 1, b) == CeilDiv(m, b) + 1
    ensures m % b != 0 ==> CeilDiv(m + 1, b) == CeilDiv(m, b)
  {
    var c := CeilDiv(m, b);
    var q := m / b;
    assert m == b * q + m % b;
    if m % b == 0 {
      CeilDivUnique(m, b, q);
      CeilDivUnique(m + 1, b, q + 1);
    } else {
      if b * c == m {
        assert b * (c - q) == m % b;
        if c - q >= 1 {
          MulMono(b, 1, c - q);
        } else {
          MulMono(b, c - q, 0);
        }
      }
      CeilDivUnique(m + 1, b, c);
    }
  }

  // ---------------------------------------------------------------------------
  // Downsampling by position

  /**
   * Keeping the positions divisible by `step` keeps `ceil(|s| / step)`
   * elements, and the k-th of them is the element at position `k * step`.
   */
  lemma {:induction false} EveryNthShape<T>(s: seq<T>, step: nat)
    requires step > 0
    ensures |EveryNth(s, step)| == CeilDiv(|s|, step)
    ensures forall k :: 0 <= k < |EveryNth(s, step)| ==> k * step < |s| && EveryNth(s, step)[k] == s[k * step]
    decreases |s|
  {
    if s != [] {
      var n := |s|;
      var p := s[..n - 1];
      EveryNthShape(p, step);
      CeilDivNext(n - 1, step);
      var r := EveryNth(s, step);
      var rp := EveryNth(p, step);
      assert r == rp + (if (n - 1) % step == 0 then [s[n - 1]] else []);
      forall k | 0 <= k < |r|
        ensures k * step < n && r[k] == s[k * step]
      {
        if k < |rp| {
          assert r[k] == rp[k] == p[k * step];
        } else {
          assert k == CeilDiv(n - 1, step);
        }
      }
    }
  }

  /** With step 1 nothing is dropped. */
  lemma EveryFirstIsIdentity<T>(s: seq<T>)
    ensures EveryNth(s, 1) == s
  {
    CeilDivUnique(|s|, 1, |s|);
    EveryNthShape(s, 1);
  }

  // ---------------------------------------------------------------------------
  // Subsequences

  /** `idx` lists, in increasing order, the positions of `s` that make up `r`. */
  ghost predicate Picks<T>(r: seq<T>, s: seq<T>, idx: seq<int>)
  {
    && |idx| == |r|
    && (forall k :: 0 <= k < |idx| ==> 0 <= idx[k] < |s| && r[k] == s[idx[k]])
    && (forall i, j :: 0 <= i < j < |idx| ==> idx[i] < idx[j])
  }

  /** `r` is `s` with some elements left out and none added or reordered. */
  ghost predicate IsSubsequence<T>(r: seq<T>, s: seq<T>)
  {
    exists idx :: Picks(r, s, idx)
  }

  lemma SubsequenceTransitive<T>(a: seq<T>, b: seq<T>, c: seq<T>)
    requires IsSubsequence(a, b) && IsSubsequence(b, c)
    ensures IsSubsequence(a, c)
  {
    var ab :| Picks(a, b, ab);
    var bc :| Picks(b, c, bc);
    var ac := seq(|ab|, k requires 0 <= k < |ab| => bc[ab[k]]);
    assert Picks(a, c, ac);
  }

  /** The range filter keeps every occurrence of a qualifying point, and no occurrence of any other. */
  lemma {:induction false} SinceCounts(s: seq<Point>, cutoff: int)
    ensures forall p :: multiset(Since(s, cutoff))[p] == if p.timestamp >= cutoff then multiset(s)[p] else 0
    decreases |s|
  {
    if s != [] {
      SinceCounts(s[1..], cutoff);
      assert s == [s[0]] + s[1..];
      assert multiset(s) == multiset{s[0]} + multiset(s[1..]);
    }
  }

  /** The range filter only leaves points out. */
  lemma {:induction false} SinceIsSubsequence(s: seq<Point>, cutoff: int)
    ensures IsSubsequence(Since(s, cutoff), s)
    decreases |s|
  {
    if s == [] {
      assert Picks<Point>([], [], []);
    } else {
      var rest := Since(s[1..], cutoff);
      SinceIsSubsequence(s[1..], cutoff);
      var idx :| Picks(rest, s[1..], idx);
      var shifted := seq(|idx|, k requires 0 <= k < |idx| => idx[k] + 1);
      assert Picks(rest, s, shifted) by {
        forall k | 0 <= k < |shifted|
          ensures 0 <= shifted[k] < |s| && rest[k] == s[shifted[k]]
        {
          assert rest[k] == s[1..][idx[k]];
        }
      }
      if s[0].timestamp >= cutoff {
        assert Since(s, cutoff) == [s[0]] + rest;
        PicksPrepend(s[0], rest, s, shifted);
      } else {
        assert Since(s, cutoff) == rest;
      }
    }
  }

  /** Putting the first element of `s` in front of a choice of later positions is still a choice. */
  lemma PicksPrepend<T>(x: T, r: seq<T>, s: seq<T>, idx: seq<int>)
    requires Picks(r, s, idx) && s != [] && s[0] == x
    requires forall k :: 0 <= k < |idx| ==> idx[k] > 0
    ensures Picks([x] + r, s, [0] + idx)
  {
  }

  /** Downsampling only leaves points out. */
  lemma EveryNthIsSubsequence<T>(s: seq<T>, step: nat)
    requires step > 0
    ensures IsSubsequence(EveryNth(s, step), s)
  {
    var r := EveryNth(s, step);
    EveryNthShape(s, step);
    var idx := seq(|r|, k requires 0 <= k < |r| => k * step);
    forall k | 0 <= k < |idx|
      ensures 0 <= idx[k] < |s| && r[k] == s[idx[k]]
    {
    }
    forall i, j | 0 <= i < j < |idx|
      ensures idx[i] < idx[j]
    {
      MulStrict(step, i, j);
    }
    assert Picks(r, s, idx);
  }

  /** Timestamps never decrease along the series. */
  ghost predicate Ascending(s: seq<Point>)
  {
    forall i, j :: 0 <= i < j < |s| ==> s[i].timestamp <= s[j].timestamp
  }

  lemma SubsequenceKeepsAscending(r: seq<Point>, s: seq<Point>)
    requires IsSubsequence(r, s) && Ascending(s)
    ensures Ascending(r)
  {
    var idx :| Picks(r, s, idx);
    forall i, j | 0 <= i < j < |r|
      ensures r[i].timestamp <= r[j].timestamp
    {
      assert r[i] == s[idx[i]] && r[j] == s[idx[j]];
    }
  }

  // ---------------------------------------------------------------------------
  // Properties of filteredData

  /** With ALL nothing is filtered out, and a series that fits the width is drawn whole. */
  lemma AllSpanKeepsEveryPoint(data: seq<Point>, nowMs: int, windowWidth: int)
    requires |data| > 2 ==> windowWidth > 50
    ensures InRange(data, All, nowMs) == data
    ensures |data| <= windowWidth - 50 ==> FilteredData(data, All, nowMs, windowWidth) == PlotAll(data)
  {
    if 2 < |data| <= windowWidth - 50 {
      NarrowSeriesKeepsAll(data, All, nowMs, windowWidth);
    }
  }

  /**
   * Any other span keeps exactly the points whose timestamp is at least
   * `now - RangeMs(span)`, in their original order.
   */
  lemma SpanFilterExact(data: seq<Point>, span: Span, nowMs: int)
    requires span != All
    ensures forall p :: p in InRange(data, span, nowMs) <==> p in data && p.timestamp >= nowMs - RangeMs(span).value
    ensures forall p :: multiset(InRange(data, span, nowMs))[p]
                        == if p.timestamp >= nowMs - RangeMs(span).value then multiset(data)[p] else 0
    ensures IsSubsequence(InRange(data, span, nowMs), data)
  {
    var cutoff := nowMs - RangeMs(span).value;
    assert InRange(data, span, nowMs) == Since(data, cutoff);
    SinceIsSubsequence(data, cutoff);
    SinceCounts(data, cutoff);
  }

  /** Two points or fewer after filtering are drawn point for point, values defaulted to 0. */
  lemma ShortSeriesUnchanged(data: seq<Point>, span: Span, nowMs: int, windowWidth: int)
    requires |InRange(data, span, nowMs)| <= 2
    ensures var filtered := InRange(data, span, nowMs);
      var out := FilteredData(data, span, nowMs, windowWidth);
      |out| == |filtered| &&
      forall k :: 0 <= k < |out| ==>
        out[k].timestamp == filtered[k].timestamp && out[k].value == filtered[k].value.GetOr(0)
  {
  }

  /**
   * More than two points after filtering: with `step = ceil(L / (windowWidth - 50))`
   * the chart gets the filtered points at positions 0, step, 2 * step, ...;
   * there are `ceil(L / step)` of them, at least one and at most
   * `windowWidth - 50`, and the first is the first filtered point.
   */
  lemma DownsampleShape(data: seq<Point>, span: Span, nowMs: int, windowWidth: int)
    requires |InRange(data, span, nowMs)| > 2 && windowWidth > 50
    ensures var filtered := InRange(data, span, nowMs);
      var step := CeilDiv(|filtered|, windowWidth - 50);
      var out := FilteredData(data, span, nowMs, windowWidth);
      && step >= 1
      && |out| == CeilDiv(|filtered|, step)
      && 1 <= |out| <= windowWidth - 50
      && (forall k :: 0 <= k < |out| ==> k * step < |filtered| && out[k] == Plot(filtered[k * step]))
      && out[0] == Plot(filtered[0])
  {
    var filtered := InRange(data, span, nowMs);
    var w := windowWidth - 50;
    var l := |filtered|;
    var step := CeilDiv(l, w);
    EveryNthShape(filtered, step);
    var c := CeilDiv(l, step);
    // step * (c - 1) < l <= w * step, so c - 1 < w
    if c - 1 >= w {
      MulMono(step, w, c - 1);
    }
  }

  /** When the filtered series fits the width (`L <= windowWidth - 50`) the step is 1 and nothing is dropped. */
  lemma NarrowSeriesKeepsAll(data: seq<Point>, span: Span, nowMs: int, windowWidth: int)
    requires 2 < |InRange(data, span, nowMs)| <= windowWidth - 50
    ensures CeilDiv(|InRange(data, span, nowMs)|, windowWidth - 50) == 1
    ensures FilteredData(data, span, nowMs, windowWidth) == PlotAll(InRange(data, span, nowMs))
  {
    var filtered := InRange(data, span, nowMs);
    CeilDivUnique(|filtered|, windowWidth - 50, 1);
    EveryFirstIsIdentity(filtered);
  }

  /**
   * The chart's points are the input's points, some left out, none invented
   * or reordered, with their values defaulted; an empty input gives an empty chart.
   */
  lemma OutputDrawnFromInput(data: seq<Point>, span: Span, nowMs: int, windowWidth: int)
    requires |InRange(data, span, nowMs)| > 2 ==> windowWidth > 50
    ensures IsSubsequence(Selected(data, span, nowMs, windowWidth), data)
    ensures |FilteredData(data, span, nowMs, windowWidth)| <= |data|
    ensures data == [] ==> FilteredData(data, span, nowMs, windowWidth) == []
  {
    var filtered := InRange(data, span, nowMs);
    if span == All {
      assert Picks(data, data, seq(|data|, k requires 0 <= k < |data| => k));
    } else {
      SinceIsSubsequence(data, nowMs - RangeMs(span).value);
    }
    if |filtered| > 2 {
      var step := CeilDiv(|filtered|, windowWidth - 50);
      EveryNthIsSubsequence(filtered, step);
      SubsequenceTransitive(Selected(data, span, nowMs, windowWidth), filtered, data);
    }
    var idx :| Picks(Selected(data, span, nowMs, windowWidth), data, idx);
    SubsequenceNoLonger(Selected(data, span, nowMs, windowWidth), data, idx);
  }

  lemma SubsequenceNoLonger<T>(r: seq<T>, s: seq<T>, idx: seq<int>)
    requires Picks(r, s, idx)
    ensures |r| <= |s|
  {
    // idx[k] >= k for every k, and the last index is below |s|
    var k := 0;
    while k < |idx|
      invariant 0 <= k <= |idx|
      invariant forall i :: 0 <= i < k ==> idx[i] >= i
    {
      if k > 0 {
        assert idx[k - 1] < idx[k];
      }
      k := k + 1;
    }
    if |idx| > 0 {
      assert idx[|idx| - 1] >= |idx| - 1;
    }
  }

  /** A series given in time order is drawn in time order. */
  lemma OutputKeepsOrder(data: seq<Point>, span: Span, nowMs: int, windowWidth: int)
    requires |InRange(data, span, nowMs)| > 2 ==> windowWidth > 50
    requires Ascending(data)
    ensures var out := FilteredData(data, span, nowMs, windowWidth);
      forall i, j :: 0 <= i < j < |out| ==> out[i].timestamp <= out[j].timestamp
  {
    OutputDrawnFromInput(data, span, nowMs, windowWidth);
    SubsequenceKeepsAscending(Selected(data, span, nowMs, windowWidth), data);
  }
}
