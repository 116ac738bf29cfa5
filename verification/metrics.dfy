/**
 * Runtime metrics printed by a running program: how a metric key is
 * classified, how it is shown, and the bounded history of its values.
 */
module Metrics {
  import opened Common

  datatype MetricType = FPS | Percentage | TimeMillis | Count | Memory | Dimension | Generic

  datatype MetricVisualization = Sparkline | Gauge | Table | Chart | Bar | Text | Auto

  /** A metric as read from one output line. The capture instant is not
      part of the model. */
  datatype RuntimeMetric = RuntimeMetric(
    key: string,
    value: string,
    category: string,
    explicitVisualization: Option<MetricVisualization>)

  // ---------------------------------------------------------------------
  // Classification of a key
  // ---------------------------------------------------------------------

  /** The position of each type in the order the key tests are tried. */
  function Rank(t: MetricType): nat
  {
    match t
    case FPS => 0
    case Percentage => 1
    case TimeMillis => 2
    case Count => 3
    case Memory => 4
    case Dimension => 5
    case Generic => 6
  }

  /** The test that selects a type, on the lower-cased key. Generic is the
      fallback and always applies. */
  predicate Rule(lower: string, t: MetricType)
  {
    match t
    case FPS => Contains(lower, "fps")
    case Percentage => Contains(lower, "percent") || Contains(lower, "percentage") || EndsWith(lower, "_pct")
    case TimeMillis => Contains(lower, "time") && Contains(lower, "ms")
    case Count => Contains(lower, "count") || Contains(lower, "entities") || Contains(lower, "draw_calls")
    case Memory => Contains(lower, "mb") || Contains(lower, "memory") || Contains(lower, "heap")
    case Dimension => Contains(lower, "width") || Contains(lower, "height")
    case Generic => true
  }

  /** `RuntimeMetric::metric_type`: the first type, in the fixed precedence
      order, whose test the lower-cased key passes. */
  function MetricTypeOf(key: string): (t: MetricType)
    ensures Rule(ToLower(key), t)
    ensures forall u: MetricType :: Rank(u) < Rank(t) ==> !Rule(ToLower(key), u)
  {
    var lower := ToLower(key);
    if Contains(lower, "fps") then FPS
    else if Contains(lower, "percent") || Contains(lower, "percentage") || EndsWith(lower, "_pct") then Percentage
    else if Contains(lower, "time") && Contains(lower, "ms") then TimeMillis
    else if Contains(lower, "count") || Contains(lower, "entities") || Contains(lower, "draw_calls") then Count
    else if Contains(lower, "mb") || Contains(lower, "memory") || Contains(lower, "heap") then Memory
    else if Contains(lower, "width") || Contains(lower, "height") then Dimension
    else Generic
  }

  /** The "percentage" test adds nothing: a key containing "percentage"
      already contains "percent". */
  lemma PercentageSubsumed(lower: string)
    requires Contains(lower, "percentage")
    ensures Contains(lower, "percent")
  {
    var i :| 0 <= i <= |lower| - |"percentage"| && OccursAt(lower, "percentage", i);
    assert lower[i..i + 7] == lower[i..i + 10][..7];
    assert OccursAt(lower, "percent", i);
  }

  /** Classification ignores the case of ASCII letters. */
  lemma MetricTypeCaseInsensitive(key: string)
    requires forall k :: 0 <= k < |key| ==> key[k] < 128 as char
    ensures MetricTypeOf(ToUpper(key)) == MetricTypeOf(key)
  {
    assert ToLower(ToUpper(key)) == ToLower(key) by {
      forall k | 0 <= k < |key|
        ensures ToLower(ToUpper(key))[k] == ToLower(key)[k]
      {
        assert ToUpper(key)[k] == UpperChar(key[k]);
      }
    }
  }

  /** The type of a key is the first type, in the precedence order, whose
      test passes: any type with that property is the one chosen. */
  lemma TypeIsFirstPassingRule(key: string, t: MetricType)
    ensures (MetricTypeOf(key) == t
             <==> Rule(ToLower(key), t) && forall u: MetricType :: Rank(u) < Rank(t) ==> !Rule(ToLower(key), u))
  {
    var chosen := MetricTypeOf(key);
    if Rule(ToLower(key), t) && (forall u: MetricType :: Rank(u) < Rank(t) ==> !Rule(ToLower(key), u)) {
      assert !(Rank(chosen) < Rank(t));
      assert !(Rank(t) < Rank(chosen));
    }
  }

  /** "fps" is tested first: every key whose lower-cased form contains it
      is an FPS metric, whatever else it contains. */
  lemma FpsWins(key: string)
    ensures Contains(ToLower(key), "fps") <==> MetricTypeOf(key) == FPS
  {
  }

  /** A key is a percentage exactly when it has no "fps" and contains
      "percent" or ends in "_pct"; the "percentage" test never decides. */
  lemma PercentageRule(key: string)
    ensures var lower := ToLower(key);
      (MetricTypeOf(key) == Percentage
       <==> !Contains(lower, "fps") && (Contains(lower, "percent") || EndsWith(lower, "_pct")))
  {
    var lower := ToLower(key);
    if Contains(lower, "percentage") {
      PercentageSubsumed(lower);
    }
  }

  /** A key with "time" is a duration only when it also has "ms", and then
      only when no earlier test passes. */
  lemma TimeNeedsMillis(key: string)
    ensures var lower := ToLower(key);
      (MetricTypeOf(key) == TimeMillis
       <==> !Rule(lower, FPS) && !Rule(lower, Percentage) && Contains(lower, "time") && Contains(lower, "ms"))
  {
  }

  /** A key whose lower-cased text holds none of the keywords (and does
      not end in "_pct") is Generic. */
  lemma NoKeywordIsGeneric(key: string, lower: string)
    requires lower == ToLower(key)
    requires !Contains(lower, "fps") && !Contains(lower, "percent") && !Contains(lower, "percentage")
    requires !EndsWith(lower, "_pct") && !Contains(lower, "ms")
    requires !Contains(lower, "count") && !Contains(lower, "entities") && !Contains(lower, "draw_calls")
    requires !Contains(lower, "mb") && !Contains(lower, "memory") && !Contains(lower, "heap")
    requires !Contains(lower, "width") && !Contains(lower, "height")
    ensures MetricTypeOf(key) == Generic
  {
  }

  /** The visualization a type gets when the line did not name one. */
  function DefaultVisualization(t: MetricType): (v: MetricVisualization)
    ensures v in {Sparkline, Gauge, Text}
    ensures v == Gauge <==> t == Percentage
    ensures v == Text <==> t in {Dimension, Generic}
  {
    match t
    case FPS => Sparkline
    case TimeMillis => Sparkline
    case Count => Sparkline
    case Memory => Sparkline
    case Percentage => Gauge
    case Dimension => Text
    case Generic => Text
  }

  /** `RuntimeMetric::visualization`: an explicit choice wins; otherwise the
      key's type decides. */
  function VisualizationOf(m: RuntimeMetric): (v: MetricVisualization)
    ensures m.explicitVisualization.Some? ==> v == m.explicitVisualization.value
    ensures m.explicitVisualization.None? ==> v in {Sparkline, Gauge, Text}
    ensures m.explicitVisualization.None? ==> (v == Gauge <==> MetricTypeOf(m.key) == Percentage)
  {
    match m.explicitVisualization
    case Some(v) => v
    case None => DefaultVisualization(MetricTypeOf(m.key))
  }

  // ---------------------------------------------------------------------
  // Visualization names
  // ---------------------------------------------------------------------

  /** The lower-case name each visualization is written as. */
  function VisualizationName(v: MetricVisualization): string
  {
    match v
    case Sparkline => "sparkline"
    case Gauge => "gauge"
    case Table => "table"
    case Chart => "chart"
    case Bar => "bar"
    case Text => "text"
    case Auto => "auto"
  }

  /** `MetricVisualization::from_str`: the lower-cased input must be one of
      the seven names. */
  function VisualizationFromStr(s: string): (r: Option<MetricVisualization>)
    ensures r.Some? ==> VisualizationName(r.value) == ToLower(s)
    ensures r.None? ==> forall v: MetricVisualization :: VisualizationName(v) != ToLower(s)
  {
    var lower := ToLower(s);
    if lower == "sparkline" then Some(Sparkline)
    else if lower == "gauge" then Some(Gauge)
    else if lower == "table" then Some(Table)
    else if lower == "chart" then Some(Chart)
    else if lower == "bar" then Some(Bar)
    else if lower == "text" then Some(Text)
    else if lower == "auto" then Some(Auto)
    else None
  }

  /** Every name reads back as its visualization, in any ASCII case. */
  lemma VisualizationNameRoundTrip(v: MetricVisualization)
    ensures VisualizationFromStr(VisualizationName(v)) == Some(v)
    ensures VisualizationFromStr(ToUpper(VisualizationName(v))) == Some(v)
  {
    var n := VisualizationName(v);
    assert ToLower(n) == n;
    assert ToLower(ToUpper(n)) == n;
  }

  // ---------------------------------------------------------------------
  // Bounded history
  // ---------------------------------------------------------------------

  /** A capture instant, carried but never inspected. */
  type Instant = nat

  const DEFAULT_MAX_HISTORY: nat := 50

  /** `MetricHistory`: values and their instants, oldest first. */
  datatype MetricHistory = MetricHistory(
    category: string,
    key: string,
    values: seq<real>,
    timestamps: seq<Instant>,
    metricType: MetricType,
    visualization: MetricVisualization,
    maxHistory: nat)

  /** `MetricHistory::new`: empty, with room for 50 values. */
  function NewHistory(category: string, key: string, t: MetricType, v: MetricVisualization): (h: MetricHistory)
    ensures h.values == [] && h.timestamps == []
    ensures h.maxHistory == DEFAULT_MAX_HISTORY
    ensures h.category == category && h.key == key && h.metricType == t && h.visualization == v
  {
    MetricHistory(category, key, [], [], t, v, DEFAULT_MAX_HISTORY)
  }

  /** `MetricHistory::latest_value`. */
  function LatestValue(h: MetricHistory): (r: Option<real>)
    ensures r.None? <==> h.values == []
    ensures r.Some? ==> r.value == h.values[|h.values| - 1]
  {
    if |h.values| == 0 then None else Some(h.values[|h.values| - 1])
  }

  /** Removing the front of a double-ended queue; empty stays empty. */
  function PopFront<T>(s: seq<T>): (r: seq<T>)
  {
    if |s| == 0 then [] else s[1..]
  }

  /** `MetricHistory::add_value`: when the history is full the oldest value
      and instant are dropped, then the new ones are appended. */
  function AddValue(h: MetricHistory, value: real, at: Instant): (r: MetricHistory)
    ensures LatestValue(r) == Some(value)
    ensures |r.timestamps| > 0 && r.timestamps[|r.timestamps| - 1] == at
    ensures EndsWith(h.values, r.values[..|r.values| - 1])
    ensures |h.values| < h.maxHistory ==> r.values == h.values + [value]
    ensures |h.values| == |h.timestamps| ==> |r.values| == |r.timestamps|
    ensures 1 <= h.maxHistory && |h.values| <= h.maxHistory ==> |r.values| <= h.maxHistory
    ensures r.(values := h.values, timestamps := h.timestamps) == h
  {
    var full := |h.values| >= h.maxHistory;
    var vs := if full then PopFront(h.values) else h.values;
    var ts := if full then PopFront(h.timestamps) else h.timestamps;
    assert (vs + [value])[..|vs|] == vs;
    h.(values := vs + [value], timestamps := ts + [at])
  }

  lemma AddValueValues(h: MetricHistory, value: real, at: Instant)
    ensures AddValue(h, value, at).values
         == (if |h.values| >= h.maxHistory then PopFront(h.values) else h.values) + [value]
    ensures AddValue(h, value, at).maxHistory == h.maxHistory
  {
  }

  /** Adding several values in order. */
  function AddValues(h: MetricHistory, xs: seq<real>, ats: seq<Instant>): MetricHistory
    requires |xs| == |ats|
  {
    if |xs| == 0 then h
    else AddValue(AddValues(h, xs[..|xs| - 1], ats[..|ats| - 1]), xs[|xs| - 1], ats[|ats| - 1])
  }

  /** The history is a sliding window: after any number of additions it
      holds exactly the last `maxHistory` values of everything seen. */
  lemma {:induction false} AddValuesWindow(h: MetricHistory, xs: seq<real>, ats: seq<Instant>)
    requires |xs| == |ats|
    requires 1 <= h.maxHistory && |h.values| <= h.maxHistory
    ensures AddValues(h, xs, ats).values == (h.values + xs)[Max(0, |h.values| + |xs| - h.maxHistory)..]
    ensures AddValues(h, xs, ats).maxHistory == h.maxHistory
  {
    if |xs| > 0 {
      var xs' := xs[..|xs| - 1];
      var x := xs[|xs| - 1];
      AddValuesWindow(h, xs', ats[..|ats| - 1]);
      var prev := AddValues(h, xs', ats[..|ats| - 1]);
      AddValueValues(prev, x, ats[|ats| - 1]);
      WindowExtend(h.values, xs, prev.values, AddValues(h, xs, ats).values, h.maxHistory);
    }
  }

  /** The window over everything seen so far, extended by the last value. */
  lemma WindowExtend(hv: seq<real>, xs: seq<real>, window: seq<real>, next: seq<real>, m: nat)
    requires 1 <= m && |xs| > 0
    requires window == (hv + xs[..|xs| - 1])[Max(0, |hv| + |xs| - 1 - m)..]
    requires next == (if |window| >= m then PopFront(window) else window) + [xs[|xs| - 1]]
    ensures next == (hv + xs)[Max(0, |hv| + |xs| - m)..]
  {
    AppendLast(hv, xs);
    WindowStep(hv + xs[..|xs| - 1], xs[|xs| - 1], window, m);
  }

  /** One step of the sliding window, on plain sequences. */
  lemma WindowStep(all: seq<real>, x: real, window: seq<real>, m: nat)
    requires 1 <= m
    requires window == all[Max(0, |all| - m)..]
    ensures (if |window| >= m then PopFront(window) else window) + [x] == (all + [x])[Max(0, |all| + 1 - m)..]
  {
    var k := Max(0, |all| - m);
    if |window| >= m {
      SliceShift(all, x, k);
    } else {
      assert all[k..] + [x] == (all + [x])[k..];
    }
  }

  /** From a fresh history, the 50 most recent values are kept. */
  lemma FreshHistoryKeepsLastFifty(category: string, key: string, t: MetricType, v: MetricVisualization, xs: seq<real>, ats: seq<Instant>)
    requires |xs| == |ats|
    ensures var h := AddValues(NewHistory(category, key, t, v), xs, ats);
      && h.values == xs[Max(0, |xs| - 50)..]
      && (|xs| > 0 ==> LatestValue(h) == Some(xs[|xs| - 1]))
  {
    var h0 := NewHistory(category, key, t, v);
    AddValuesWindow(h0, xs, ats);
    assert h0.values + xs == xs;
  }
}
