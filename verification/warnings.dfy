/**
 * How the warnings tab finds the source location of a selected warning:
 * the raw compiler line is cut at whitespace and scanned from the end for
 * a token that looks like a path followed by ":line" and possibly
 * ":column".
 */
module WarningLocations {
  import opened Common
  import opened Entries

  /** `WarningLocation`; the path is kept as the text it was read from. */
  datatype WarningLocation = WarningLocation(filePath: string, line: nat, column: Option<nat>)

  /** The warning-level entries, in their order. */
  function WarningEntries(entries: seq<LogEntry>): (r: seq<LogEntry>)
    ensures |r| <= |entries|
    ensures forall e :: e in r <==> e in entries && e.level == Warning
    ensures |entries| == 1 ==> r == (if entries[0].level == Warning then entries else [])
  {
    if |entries| == 0 then []
    else
      var rest := WarningEntries(entries[1..]);
      assert forall e :: e in entries <==> e == entries[0] || e in entries[1..];
      if entries[0].level == Warning then [entries[0]] + rest else rest
  }

  /** The filter keeps the order: on a concatenation it is the warnings of
      the first part followed by those of the second. */
  lemma {:induction false} WarningEntriesAppend(a: seq<LogEntry>, b: seq<LogEntry>)
    ensures WarningEntries(a + b) == WarningEntries(a) + WarningEntries(b)
    decreases |a|
  {
    if |a| > 0 {
      assert (a + b)[1..] == a[1..] + b;
      WarningEntriesAppend(a[1..], b);
    } else {
      assert a + b == b;
    }
  }

  /** A token worth reading as a location: it holds a ':' and is an
      absolute path or mentions "src/" or "examples/". */
  predicate IsCandidate(part: string)
  {
    Contains(part, ":") && (StartsWith(part, "/") || Contains(part, "src/") || Contains(part, "examples/"))
  }

  /** The location a token spells: its first ':' field is the file, the
      second must be a `usize` line number, and a third field, if there
      is one, is the column when it parses. Further fields are ignored. */
  function LocationOf(part: string): (r: Option<WarningLocation>)
    ensures var fields := Split(part, ':');
      && (r.Some? <==> |fields| >= 2 && ParseUsize(fields[1]).Some?)
      && (r.Some? ==> r.value.filePath == fields[0] && Some(r.value.line) == ParseUsize(fields[1]))
      && (r.Some? && |fields| == 2 ==> r.value.column == None)
      && (r.Some? && |fields| >= 3 ==> r.value.column == ParseUsize(fields[2]))
  {
    var fields := Split(part, ':');
    if |fields| >= 2 then
      match ParseUsize(fields[1])
      case Some(line) =>
        Some(WarningLocation(fields[0], line, if |fields| >= 3 then ParseUsize(fields[2]) else None))
      case None => None
    else None
  }

  /** A candidate always has at least two ':' fields, so the program's
      check for two fields never fails once a token is a candidate. */
  lemma CandidateFields(part: string)
    requires IsCandidate(part)
    ensures |Split(part, ':')| >= 2
  {
    var i :| 0 <= i <= |part| - 1 && OccursAt(part, ":", i);
    assert part[i] == ':';
    CountPositive(part, ':');
    SplitLength(part, ':');
  }

  predicate Qualifies(part: string)
  {
    IsCandidate(part) && LocationOf(part).Some?
  }

  /** Token `k` is the last one that qualifies. */
  predicate LastQualifying(tokens: seq<string>, k: int)
  {
    0 <= k < |tokens| && Qualifies(tokens[k])
    && forall j :: k < j < |tokens| ==> !Qualifies(tokens[j])
  }

  /** The scan from the last token to the first, as the loop over the
      reversed tokens does it. */
  function ScanFromEnd(tokens: seq<string>): Option<WarningLocation>
    decreases |tokens|
  {
    if |tokens| == 0 then None
    else if Qualifies(tokens[|tokens| - 1]) then LocationOf(tokens[|tokens| - 1])
    else ScanFromEnd(tokens[..|tokens| - 1])
  }

  /** The scan finds the last qualifying token: the first candidate from
      the end with a numeric line field wins, candidates without one are
      passed over, and with none the result is None. */
  lemma ScanFindsLast(tokens: seq<string>)
    ensures var r := ScanFromEnd(tokens);
      && (r.None? <==> forall k :: 0 <= k < |tokens| ==> !Qualifies(tokens[k]))
      && (r.Some? ==> exists k :: LastQualifying(tokens, k) && r == LocationOf(tokens[k]))
  {
    ScanNone(tokens);
    ScanSome(tokens);
  }

  lemma {:induction false} ScanNone(tokens: seq<string>)
    ensures ScanFromEnd(tokens).None? <==> forall k :: 0 <= k < |tokens| ==> !Qualifies(tokens[k])
    decreases |tokens|
  {
    if |tokens| > 0 && !Qualifies(tokens[|tokens| - 1]) {
      var init := tokens[..|tokens| - 1];
      ScanNone(init);
      assert ScanFromEnd(tokens) == ScanFromEnd(init);
      assert forall k :: 0 <= k < |init| ==> init[k] == tokens[k];
    }
  }

  lemma {:induction false} ScanSome(tokens: seq<string>)
    ensures var r := ScanFromEnd(tokens);
      r.Some? ==> exists k :: LastQualifying(tokens, k) && r == LocationOf(tokens[k])
    decreases |tokens|
  {
    if |tokens| > 0 {
      var last := tokens[|tokens| - 1];
      if Qualifies(last) {
        assert LastQualifying(tokens, |tokens| - 1);
      } else {
        var init := tokens[..|tokens| - 1];
        ScanSome(init);
        var r := ScanFromEnd(init);
        assert ScanFromEnd(tokens) == r;
        if r.Some? {
          var k :| LastQualifying(init, k) && r == LocationOf(init[k]);
          LastQualifyingExtends(tokens, k);
        }
      }
    }
  }

  /** A token that does not qualify, added at the end, leaves the last
      qualifying one where it was. */
  lemma LastQualifyingExtends(tokens: seq<string>, k: int)
    requires |tokens| > 0 && !Qualifies(tokens[|tokens| - 1])
    requires LastQualifying(tokens[..|tokens| - 1], k)
    ensures LastQualifying(tokens, k) && tokens[k] == tokens[..|tokens| - 1][k]
  {
    var init := tokens[..|tokens| - 1];
    forall j | k < j < |tokens|
      ensures !Qualifies(tokens[j])
    {
      if j < |init| {
        assert tokens[j] == init[j];
      }
    }
  }

  /** `parse_warning_location`: both branches of its message test read
      the raw line, so the message plays no part. */
  function ParseWarningLocation(e: LogEntry): (r: Option<WarningLocation>)
    ensures var tokens := SplitWhitespace(e.rawLine);
      && (r.None? <==> forall k :: 0 <= k < |tokens| ==> !Qualifies(tokens[k]))
      && (r.Some? ==> exists k :: LastQualifying(tokens, k) && r == LocationOf(tokens[k]))
  {
    ScanFindsLast(SplitWhitespace(e.rawLine));
    ScanFromEnd(SplitWhitespace(e.rawLine))
  }

  /** `get_selected_location`: the n-th warning's location, and none when
      there are not that many warnings. */
  function GetSelectedLocation(entries: seq<LogEntry>, selected: nat): (r: Option<WarningLocation>)
    ensures selected >= |WarningEntries(entries)| ==> r == None
    ensures selected < |WarningEntries(entries)| ==> r == ParseWarningLocation(WarningEntries(entries)[selected])
    ensures r.Some? ==> exists e :: e in entries && e.level == Warning && r == ParseWarningLocation(e)
  {
    var warnings := WarningEntries(entries);
    if selected < |warnings| then
      assert warnings[selected] in warnings;
      ParseWarningLocation(warnings[selected])
    else None
  }

  /** The location shown for the selected warning is read from the last
      token of that warning's raw line that qualifies, and there is none
      when no token qualifies. */
  lemma SelectedLocationIsLastQualifying(entries: seq<LogEntry>, selected: nat)
    requires selected < |WarningEntries(entries)|
    ensures var tokens := SplitWhitespace(WarningEntries(entries)[selected].rawLine);
      var r := GetSelectedLocation(entries, selected);
      && (r.None? <==> forall k :: 0 <= k < |tokens| ==> !Qualifies(tokens[k]))
      && (r.Some? ==> exists k :: LastQualifying(tokens, k) && r == LocationOf(tokens[k]))
  {
    ScanFindsLast(SplitWhitespace(WarningEntries(entries)[selected].rawLine));
  }

  lemma ContainsExtends(a: string, b: string, p: string)
    requires Contains(a, p)
    ensures Contains(a + b, p)
  {
    var i :| 0 <= i <= |a| - |p| && OccursAt(a, p, i);
    assert (a + b)[i..i + |p|] == a[i..i + |p|];
    assert OccursAt(a + b, p, i);
  }

  /** A location written as "path:line:column", with a path that has no
      ':' and is absolute or under "src/" or "examples/", is read back
      exactly. */
  lemma LocationRoundTrip(path: string, line: nat, column: nat)
    requires ':' !in path && line <= USIZE_MAX && column <= USIZE_MAX
    requires StartsWith(path, "/") || Contains(path, "src/") || Contains(path, "examples/")
    ensures var token := path + ":" + NatToString(line) + ":" + NatToString(column);
      Qualifies(token) && LocationOf(token) == Some(WarningLocation(path, line, Some(column)))
  {
    var l, c := NatToString(line), NatToString(column);
    ParseUsizeOfNatToString(line);
    ParseUsizeOfNatToString(column);
    DigitsTokenRoundTrip(path, l, c, line, column);
  }

  /** The same for any digit strings that parse to the line and column. */
  lemma DigitsTokenRoundTrip(path: string, l: string, c: string, line: nat, column: nat)
    requires ':' !in path && AllDigits(l) && AllDigits(c)
    requires ParseUsize(l) == Some(line) && ParseUsize(c) == Some(column)
    requires StartsWith(path, "/") || Contains(path, "src/") || Contains(path, "examples/")
    ensures var token := path + ":" + l + ":" + c;
      Qualifies(token) && LocationOf(token) == Some(WarningLocation(path, line, Some(column)))
  {
    var token := path + ":" + l + ":" + c;
    TokenFields(path, l, c);
    assert Split(token, ':') == [path, l, c];
    var rest := ":" + l + ":" + c;
    ConcatAssoc(path + ":" + l, ":", c);
    ConcatAssoc(path + ":", l, ":" + c);
    ConcatAssoc(path, ":", l + ":" + c);
    ConcatAssoc(":", l, ":");
    ConcatAssoc(":" + l, ":", c);
    ConcatAssoc(":", l + ":", c);
    ConcatAssoc(l, ":", c);
    assert token == path + rest;
    TokenIsCandidate(path, rest);
  }

  lemma TokenFields(path: string, l: string, c: string)
    requires ':' !in path && AllDigits(l) && AllDigits(c)
    ensures Split(path + ":" + l + ":" + c, ':') == [path, l, c]
  {
    var fields := [path, l, c];
    DigitsHaveNoColon(l);
    DigitsHaveNoColon(c);
    assert fields[1..] == [l, c];
    assert fields[1..][1..] == [c];
    assert Join([c], [':']) == c;
    assert Join([l, c], [':']) == l + [':'] + c;
    assert Join(fields, [':']) == path + [':'] + (l + [':'] + c);
    assert path + [':'] + (l + [':'] + c) == path + ":" + l + ":" + c;
    SplitJoin(fields, ':');
  }

  lemma TokenIsCandidate(path: string, rest: string)
    requires |rest| > 0 && rest[0] == ':'
    requires StartsWith(path, "/") || Contains(path, "src/") || Contains(path, "examples/")
    ensures IsCandidate(path + rest)
  {
    var token := path + rest;
    assert OccursAt(token, ":", |path|);
    if StartsWith(path, "/") {
      assert token[..1] == path[..1];
    } else if Contains(path, "src/") {
      ContainsExtends(path, rest, "src/");
    } else {
      ContainsExtends(path, rest, "examples/");
    }
  }
}
