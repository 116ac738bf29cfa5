/**
 * One parsed line of build or program output: its level, where it came
 * from, and an optional source location.
 */
module Entries {
  import opened Common

  datatype LogLevel = Debug | Info | Warning | Error | Fatal

  /** The position of a level in the declaration order, which is the order
      the derived comparison uses. */
  function Severity(l: LogLevel): nat
  {
    match l
    case Debug => 0
    case Info => 1
    case Warning => 2
    case Error => 3
    case Fatal => 4
  }

  /** `l <= m` on levels. */
  predicate LevelLe(l: LogLevel, m: LogLevel)
  {
    Severity(l) <= Severity(m)
  }

  /** The level order is a total order: reflexive, antisymmetric,
      transitive and total. */
  lemma LevelOrderTotal()
    ensures forall l :: LevelLe(l, l)
    ensures forall l, m :: LevelLe(l, m) && LevelLe(m, l) ==> l == m
    ensures forall l, m, n :: LevelLe(l, m) && LevelLe(m, n) ==> LevelLe(l, n)
    ensures forall l, m :: LevelLe(l, m) || LevelLe(m, l)
    ensures LevelLe(Debug, Info) && LevelLe(Info, Warning) && LevelLe(Warning, Error) && LevelLe(Error, Fatal)
    ensures !LevelLe(Fatal, Error) && !LevelLe(Error, Warning) && !LevelLe(Warning, Info) && !LevelLe(Info, Debug)
  {
  }

  /** `LogLevel::to_str`. */
  function LevelName(l: LogLevel): (s: string)
    ensures |s| > 0 && forall k :: 0 <= k < |s| ==> 'A' <= s[k] <= 'Z'
  {
    match l
    case Debug => "DEBUG"
    case Info => "INFO"
    case Warning => "WARNING"
    case Error => "ERROR"
    case Fatal => "FATAL"
  }

  /** Reading a level name back; the inverse of `LevelName`. */
  function LevelFromName(s: string): (r: Option<LogLevel>)
    ensures r.Some? ==> LevelName(r.value) == s
  {
    if s == "DEBUG" then Some(Debug)
    else if s == "INFO" then Some(Info)
    else if s == "WARNING" then Some(Warning)
    else if s == "ERROR" then Some(Error)
    else if s == "FATAL" then Some(Fatal)
    else None
  }

  /** Distinct levels have distinct names, each read back as its level. */
  lemma LevelNameRoundTrip(l: LogLevel)
    ensures LevelFromName(LevelName(l)) == Some(l)
  {
  }

  datatype LogComponent = CMake | Compiler | Linker | Build | Other(name: string)

  /** A log entry. The wall-clock timestamp is not part of the model. */
  datatype LogEntry = LogEntry(
    level: LogLevel,
    message: string,
    rawLine: string,
    filePath: Option<string>,
    lineNumber: Option<nat>,
    column: Option<nat>,
    component: LogComponent,
    tags: seq<string>,
    index: nat)

  /** `LogEntry::new`: no location and no tags. */
  function NewEntry(level: LogLevel, message: string, rawLine: string, component: LogComponent, index: nat): (e: LogEntry)
    ensures e.filePath == None && e.lineNumber == None && e.column == None && e.tags == []
    ensures e.level == level && e.message == message && e.rawLine == rawLine
    ensures e.component == component && e.index == index
  {
    LogEntry(level, message, rawLine, None, None, None, component, [], index)
  }

  /** `with_location`: sets the three location fields and nothing else. */
  function WithLocation(e: LogEntry, path: string, line: Option<nat>, column: Option<nat>): (r: LogEntry)
    ensures r.filePath == Some(path) && r.lineNumber == line && r.column == column
    ensures r.(filePath := e.filePath, lineNumber := e.lineNumber, column := e.column) == e
  {
    e.(filePath := Some(path), lineNumber := line, column := column)
  }

  /** `with_tags`: replaces the tags and nothing else. */
  function WithTags(e: LogEntry, tags: seq<string>): (r: LogEntry)
    ensures r.tags == tags
    ensures r.(tags := e.tags) == e
  {
    e.(tags := tags)
  }

  /** `location_string`: the path, then ":line" when there is a line, then
      ":column" when there is also a column. */
  function LocationString(e: LogEntry): (r: Option<string>)
    ensures r.Some? <==> e.filePath.Some?
    ensures r.Some? ==> StartsWith(r.value, e.filePath.value)
    ensures r.Some? && e.lineNumber.None? ==> r.value == e.filePath.value
  {
    match e.filePath
    case None => None
    case Some(path) =>
      match e.lineNumber
      case None => Some(path)
      case Some(line) =>
        var withLine := path + ":" + NatToString(line);
        match e.column
        case None => Some(withLine)
        case Some(col) => Some(withLine + ":" + NatToString(col))
  }

  /** The fields of a location string, read back by splitting on ':'. For a
      path without ':' these are exactly the path, the line and (only if
      there is a line) the column, so the location loses nothing. */
  lemma {:induction false} LocationStringFields(e: LogEntry)
    requires e.filePath.Some? && ':' !in e.filePath.value
    ensures var fields := Split(LocationString(e).value, ':');
      && fields[0] == e.filePath.value
      && (e.lineNumber.None? ==> |fields| == 1)
      && (e.lineNumber.Some? ==> |fields| == (if e.column.Some? then 3 else 2))
      && (e.lineNumber.Some? && e.lineNumber.value <= USIZE_MAX ==> ParseUsize(fields[1]) == Some(e.lineNumber.value))
      && (e.lineNumber.Some? && e.column.Some? && e.column.value <= USIZE_MAX ==> ParseUsize(fields[2]) == Some(e.column.value))
  {
    var path := e.filePath.value;
    var parts: seq<string>;
    if e.lineNumber.None? {
      parts := [path];
    } else if e.column.None? {
      parts := [path, NatToString(e.lineNumber.value)];
      assert Join(parts, ":") == path + ":" + NatToString(e.lineNumber.value) by {
        assert parts[1..] == [NatToString(e.lineNumber.value)];
      }
    } else {
      parts := [path, NatToString(e.lineNumber.value), NatToString(e.column.value)];
      assert Join(parts, ":") == path + ":" + NatToString(e.lineNumber.value) + ":" + NatToString(e.column.value) by {
        assert parts[1..] == [NatToString(e.lineNumber.value), NatToString(e.column.value)];
        assert parts[1..][1..] == [NatToString(e.column.value)];
        assert Join(parts[1..], ":") == NatToString(e.lineNumber.value) + ":" + NatToString(e.column.value);
      }
    }
    forall k | 0 <= k < |parts|
      ensures ':' !in parts[k]
    {
      if k > 0 {
        DigitsHaveNoColon(parts[k]);
      }
    }
    assert Join(parts, ":") == LocationString(e).value;
    SplitJoin(parts, ':');
    if e.lineNumber.Some? && e.lineNumber.value <= USIZE_MAX {
      ParseUsizeOfNatToString(e.lineNumber.value);
    }
    if e.lineNumber.Some? && e.column.Some? && e.column.value <= USIZE_MAX {
      ParseUsizeOfNatToString(e.column.value);
    }
  }

  lemma DigitsHaveNoColon(s: string)
    requires AllDigits(s)
    ensures ':' !in s
  {
  }
}
