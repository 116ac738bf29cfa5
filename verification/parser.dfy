/**
 * Reading lines of output: the metric-line grammar a running program uses
 * to report values, and the numbering of compiler-output entries.
 */
module Parser {
  import opened Common
  import opened Metrics
  import opened Entries

  const METRIC_PREFIX: string := "[IGNIS_METRIC] "

  // ---------------------------------------------------------------------
  // Metric lines: `[IGNIS_METRIC] <category>:<key>=<value>[:<visualization>]`
  // ---------------------------------------------------------------------

  /** `MetricParser::parse_metric_line` as written. The text after the
      prefix is split on every ':', so the second field can never contain
      ':'; the visualization branch therefore never fires. */
  function ParseMetricLineAsWritten(line: string): (r: Option<RuntimeMetric>)
    ensures r.Some? ==> StartsWith(line, METRIC_PREFIX)
    ensures r.Some? ==> r.value.explicitVisualization == None
  {
    match StripPrefix(line, METRIC_PREFIX)
    case None => None
    case Some(body) =>
      var parts := Split(body, ':');
      if |parts| >= 2 then
        var kv := Split(parts[1], '=');
        if |kv| == 2 then
          var valueAndViz := Split(kv[1], ':');
          var viz := if |valueAndViz| > 1 then VisualizationFromStr(valueAndViz[1]) else None;
          SplitFieldsFree(body, ':');
          NoSeparatorOneField(kv[1], parts[1], '=', ':');
          Some(RuntimeMetric(kv[0], valueAndViz[0], parts[0], viz))
        else None
      else None
  }

  /** A field cut out of a separator-free text splits into one field. */
  lemma NoSeparatorOneField(field: string, whole: string, c: char, d: char)
    requires d !in whole
    requires field in Split(whole, c)
    ensures Split(field, d) == [field]
  {
    SplitSubsequence(whole, c);
    assert d !in field;
    NoSeparatorSplit(field, d);
  }

  /** Every field of a split is made of characters of the input. */
  lemma {:induction false} SplitSubsequence(s: string, c: char)
    ensures forall f, x :: f in Split(s, c) && x in f ==> x in s
    decreases |s|
  {
    if |s| > 0 {
      SplitSubsequence(s[1..], c);
    }
  }

  lemma {:induction false} NoSeparatorSplit(s: string, c: char)
    requires c !in s
    ensures Split(s, c) == [s]
    decreases |s|
  {
    if |s| > 0 {
      NoSeparatorSplit(s[1..], c);
      assert [s[0]] + s[1..] == s;
    }
  }

  /** The metric-line parser with the visualization read from the third
      ':' field, as the grammar intends. Everything else is as written. */
  function ParseMetricLine(line: string): (r: Option<RuntimeMetric>)
    ensures r.Some? <==> ParseMetricLineAsWritten(line).Some?
    ensures r.Some? ==> r.value.(explicitVisualization := None) == ParseMetricLineAsWritten(line).value
  {
    match ParseMetricLineAsWritten(line)
    case None => None
    case Some(m) =>
      var body := line[|METRIC_PREFIX|..];
      var parts := Split(body, ':');
      Some(m.(explicitVisualization := if |parts| > 2 then VisualizationFromStr(parts[2]) else None))
  }

  /** The text of a metric line, as a program would print it. */
  function FormatMetricLine(category: string, key: string, value: string, viz: Option<string>): string
  {
    METRIC_PREFIX + category + ":" + key + "=" + value + (if viz.Some? then ":" + viz.value else "")
  }

  /** Fields that cannot be confused with the separators. */
  predicate PlainField(s: string)
  {
    ':' !in s && '=' !in s
  }

  /** A printed line reads back as its category, key and value, and any
      visualization suffix is dropped by the parser as written. */
  lemma {:induction false} MetricLineRoundTripAsWritten(category: string, key: string, value: string, viz: Option<string>)
    requires ':' !in category && PlainField(key) && PlainField(value)
    requires viz.Some? ==> ':' !in viz.value
    ensures ParseMetricLineAsWritten(FormatMetricLine(category, key, value, viz))
         == Some(RuntimeMetric(key, value, category, None))
  {
    var kv := key + "=" + value;
    var tail := if viz.Some? then [viz.value] else [];
    var fields := [category, kv] + tail;
    var body := Join(fields, ":");
    BodyShape(category, kv, viz);
    assert FormatMetricLine(category, key, value, viz) == METRIC_PREFIX + body;
    FieldsFree(category, kv, tail, key, value);
    SplitJoin(fields, ':');
    SplitJoin([key, value], '=');
    assert Join([key, value], "=") == kv by {
      assert [key, value][1..] == [value];
    }
    var line := FormatMetricLine(category, key, value, viz);
    assert StripPrefix(line, METRIC_PREFIX) == Some(body) by {
      assert line[|METRIC_PREFIX|..] == body;
    }
    NoSeparatorSplit(value, ':');
  }

  /** The same line read by the corrected parser keeps the visualization. */
  lemma {:induction false} MetricLineRoundTrip(category: string, key: string, value: string, viz: Option<MetricVisualization>)
    requires ':' !in category && PlainField(key) && PlainField(value)
    ensures var text := if viz.Some? then Some(VisualizationName(viz.value)) else None;
      ParseMetricLine(FormatMetricLine(category, key, value, text)) == Some(RuntimeMetric(key, value, category, viz))
  {
    var text := if viz.Some? then Some(VisualizationName(viz.value)) else None;
    assert text.Some? ==> ':' !in text.value by {
      if viz.Some? {
        VisualizationNameRoundTrip(viz.value);
      }
    }
    MetricLineRoundTripAsWritten(category, key, value, text);
    var line := FormatMetricLine(category, key, value, text);
    var parts := MetricLineParts(category, key, value, text);
    CorrectedViz(line, RuntimeMetric(key, value, category, None));
    if viz.Some? {
      VisualizationNameRoundTrip(viz.value);
    }
  }

  /** The ':' fields of a printed line's body. */
  lemma MetricLineParts(category: string, key: string, value: string, text: Option<string>) returns (parts: seq<string>)
    requires ':' !in category && PlainField(key) && PlainField(value)
    requires text.Some? ==> ':' !in text.value
    ensures var line := FormatMetricLine(category, key, value, text);
      && StartsWith(line, METRIC_PREFIX)
      && parts == Split(line[|METRIC_PREFIX|..], ':')
      && |parts| == (if text.Some? then 3 else 2)
      && (text.Some? ==> parts[2] == text.value)
  {
    var kv := key + "=" + value;
    var tail := if text.Some? then [text.value] else [];
    var fields := [category, kv] + tail;
    FormatShape(category, key, value, text);
    FieldsFree(category, kv, tail, key, value);
    SplitJoin(fields, ':');
    var line := FormatMetricLine(category, key, value, text);
    assert line[|METRIC_PREFIX|..] == Join(fields, ":");
    parts := fields;
  }

  lemma CorrectedViz(line: string, m: RuntimeMetric)
    requires ParseMetricLineAsWritten(line) == Some(m)
    ensures var parts := Split(line[|METRIC_PREFIX|..], ':');
      ParseMetricLine(line) == Some(m.(explicitVisualization := if |parts| > 2 then VisualizationFromStr(parts[2]) else None))
  {
  }

  /** A printed line is the prefix followed by its fields joined by ':'. */
  lemma FormatShape(category: string, key: string, value: string, viz: Option<string>)
    ensures var tail := if viz.Some? then [viz.value] else [];
      FormatMetricLine(category, key, value, viz) == METRIC_PREFIX + Join([category, key + "=" + value] + tail, ":")
  {
    var p := METRIC_PREFIX + category + ":";
    var x := if viz.Some? then ":" + viz.value else "";
    ConcatAssoc(p + key, "=", value);
    ConcatAssoc(p, key, "=" + value);
    ConcatAssoc(p, key + "=", value);
    BodyShape(category, key + "=" + value, viz);
  }

  lemma BodyShape(category: string, kv: string, viz: Option<string>)
    ensures var tail := if viz.Some? then [viz.value] else [];
      METRIC_PREFIX + category + ":" + kv + (if viz.Some? then ":" + viz.value else "")
      == METRIC_PREFIX + Join([category, kv] + tail, ":")
  {
    var tail := if viz.Some? then [viz.value] else [];
    var fields := [category, kv] + tail;
    assert fields[1..] == [kv] + tail;
    if viz.Some? {
      assert fields[1..][1..] == [viz.value];
      assert Join(fields[1..], ":") == kv + ":" + viz.value;
    } else {
      assert Join(fields[1..], ":") == kv;
    }
  }

  lemma FieldsFree(category: string, kv: string, tail: seq<string>, key: string, value: string)
    requires ':' !in category && PlainField(key) && PlainField(value)
    requires kv == key + "=" + value
    requires forall k :: 0 <= k < |tail| ==> ':' !in tail[k]
    ensures forall k :: 0 <= k < |[category, kv] + tail| ==> ':' !in ([category, kv] + tail)[k]
    ensures forall k :: 0 <= k < |[key, value]| ==> '=' !in [key, value][k]
  {
    assert ':' !in kv;
  }

  /** For a line of the form `[IGNIS_METRIC] category:key=value:visualization`
      the parser as written loses the suffix, for instance on
      "[IGNIS_METRIC] render:fps=60:gauge"; the corrected parser keeps it. */
  lemma VisualizationSuffixIgnored()
    ensures ParseMetricLineAsWritten("[IGNIS_METRIC] render:fps=60:gauge") == Some(RuntimeMetric("fps", "60", "render", None))
    ensures ParseMetricLine("[IGNIS_METRIC] render:fps=60:gauge") == Some(RuntimeMetric("fps", "60", "render", Some(Gauge)))
  {
    assert FormatMetricLine("render", "fps", "60", Some("gauge")) == "[IGNIS_METRIC] render:fps=60:gauge";
    MetricLineRoundTripAsWritten("render", "fps", "60", Some("gauge"));
    assert VisualizationName(Gauge) == "gauge";
    MetricLineRoundTrip("render", "fps", "60", Some(Gauge));
  }

  /** Lines without the exact prefix are never metrics. */
  lemma NonMetricLine(line: string)
    requires !StartsWith(line, METRIC_PREFIX)
    ensures ParseMetricLine(line) == None && ParseMetricLineAsWritten(line) == None
  {
  }

  // ---------------------------------------------------------------------
  // Compiler output: entry numbering
  // ---------------------------------------------------------------------

  /** What the pattern tests decide about a line: level, message,
      component, location and tags. The tests themselves are left
      abstract. */
  datatype Classification = Classification(
    level: LogLevel,
    message: string,
    component: LogComponent,
    location: Option<(string, Option<nat>, Option<nat>)>,
    tags: seq<string>)

  type Classifier = string -> Classification

  datatype CompilerOutputParser = CompilerOutputParser(logIndex: nat)

  function NewCompilerOutputParser(): (p: CompilerOutputParser)
    ensures p.logIndex == 0
  {
    CompilerOutputParser(0)
  }

  /** `reset`. */
  function Reset(p: CompilerOutputParser): (r: CompilerOutputParser)
    ensures r.logIndex == 0
  {
    CompilerOutputParser(0)
  }

  /** `parse_line`: the entry carries the current counter and the original
      line, and the counter moves on by one. */
  function ParseLine(p: CompilerOutputParser, line: string, classify: Classifier): (r: (CompilerOutputParser, LogEntry))
    ensures r.0.logIndex == p.logIndex + 1
    ensures r.1.index == p.logIndex && r.1.rawLine == line
    ensures r.1.level == classify(line).level && r.1.message == classify(line).message
    ensures r.1.component == classify(line).component
  {
    var c := classify(line);
    var e := NewEntry(c.level, c.message, line, c.component, p.logIndex);
    var located := match c.location
      case None => e
      case Some(loc) => WithLocation(e, loc.0, loc.1, loc.2);
    (CompilerOutputParser(p.logIndex + 1), WithTags(located, c.tags))
  }

  /** Parsing several lines in order. */
  function ParseLines(p: CompilerOutputParser, lines: seq<string>, classify: Classifier): (r: (CompilerOutputParser, seq<LogEntry>))
    ensures |r.1| == |lines|
    decreases |lines|
  {
    if |lines| == 0 then (p, [])
    else
      var (p', e) := ParseLine(p, lines[0], classify);
      var (p'', es) := ParseLines(p', lines[1..], classify);
      (p'', [e] + es)
  }

  /** Entries are numbered consecutively from the counter, each keeps its
      own line, and the counter ends past the last number. */
  lemma {:induction false} ParseLinesNumbering(p: CompilerOutputParser, lines: seq<string>, classify: Classifier)
    ensures var (p', es) := ParseLines(p, lines, classify);
      && p'.logIndex == p.logIndex + |lines|
      && forall i :: 0 <= i < |lines| ==> es[i].index == p.logIndex + i && es[i].rawLine == lines[i]
    decreases |lines|
  {
    if |lines| > 0 {
      var (p1, e) := ParseLine(p, lines[0], classify);
      ParseLinesNumbering(p1, lines[1..], classify);
    }
  }

  /** After a reset, numbering starts again from 0. */
  lemma ResetRestartsNumbering(p: CompilerOutputParser, lines: seq<string>, classify: Classifier)
    ensures forall i :: 0 <= i < |lines| ==> ParseLines(Reset(p), lines, classify).1[i].index == i
  {
    ParseLinesNumbering(Reset(p), lines, classify);
  }
}
