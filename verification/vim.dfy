/**
 * The vim-like command state of the interface: the input mode and its
 * line buffer, the ':' commands, the '/' search, the pending key
 * sequence and the numeric count prefix.
 */
module Vim {
  import opened Common
  import opened Entries
  import opened Filters
  import opened Keybindings

  datatype InputMode = Normal | Command | Search

  /** `VimCommandMode`. Search positions are `usize` values, modelled as
      `nat` (the overflow of `next_search` is not modelled). */
  datatype VimState = VimState(
    mode: InputMode,
    inputBuffer: string,
    searchPattern: Option<string>,
    searchIndex: nat,
    pending: Option<PendingSequence>,
    countBuffer: string)

  /** What a ':' command or a '/' search asks for. A filter is the filter
      value itself rather than a boxed trait object. */
  datatype CommandResult =
    | Quit
    | WriteLogs(file: Option<string>)
    | ApplyFilter(filter: Filter)
    | ClearFilter
    | Search(pattern: string, filter: Filter)
    | GotoLine(line: nat)

  /** `VimCommandMode::new`. */
  function NewVim(): (v: VimState)
    ensures v.mode == Normal && v.inputBuffer == "" && v.countBuffer == ""
    ensures v.pending == None && v.searchPattern == None && v.searchIndex == 0
  {
    VimState(Normal, "", None, 0, None, "")
  }

  /** `enter_command_mode`, `enter_search_mode` and `exit_to_normal`: set
      the mode and clear the line buffer, nothing else. */
  function EnterCommandMode(v: VimState): (r: VimState)
    ensures r.mode == Command && r.inputBuffer == ""
    ensures r.(mode := v.mode, inputBuffer := v.inputBuffer) == v
  {
    v.(mode := Command, inputBuffer := "")
  }

  function EnterSearchMode(v: VimState): (r: VimState)
    ensures r.mode == InputMode.Search && r.inputBuffer == ""
    ensures r.(mode := v.mode, inputBuffer := v.inputBuffer) == v
  {
    v.(mode := InputMode.Search, inputBuffer := "")
  }

  function ExitToNormal(v: VimState): (r: VimState)
    ensures r.mode == Normal && r.inputBuffer == ""
    ensures r.(mode := v.mode, inputBuffer := v.inputBuffer) == v
  {
    v.(mode := Normal, inputBuffer := "")
  }

  /** `push_char` and `pop_char` on the line buffer; popping an empty
      buffer does nothing. */
  function PushChar(v: VimState, c: char): (r: VimState)
    ensures r.inputBuffer == v.inputBuffer + [c]
    ensures r.(inputBuffer := v.inputBuffer) == v
  {
    v.(inputBuffer := v.inputBuffer + [c])
  }

  function PopChar(v: VimState): (r: VimState)
    ensures |v.inputBuffer| > 0 ==> r.inputBuffer + [v.inputBuffer[|v.inputBuffer| - 1]] == v.inputBuffer
    ensures |v.inputBuffer| == 0 ==> r == v
    ensures r.(inputBuffer := v.inputBuffer) == v
  {
    if |v.inputBuffer| == 0 then v else v.(inputBuffer := v.inputBuffer[..|v.inputBuffer| - 1])
  }

  /** Backspace undoes a typed character. */
  lemma PopUndoesPush(v: VimState, c: char)
    ensures PopChar(PushChar(v, c)) == v
  {
    assert (v.inputBuffer + [c])[..|v.inputBuffer|] == v.inputBuffer;
  }

  // ---------------------------------------------------------------------
  // ':' commands
  // ---------------------------------------------------------------------

  /** The level a "filter level=" word names: the word upper-cased must be
      one of ERROR, WARNING, INFO and DEBUG. FATAL is not accepted. */
  function FilterLevel(word: string): (r: Option<LogLevel>)
    ensures r.Some? ==> r.value != Fatal && LevelName(r.value) == ToUpper(word)
    ensures r.None? ==> forall l :: l != Fatal ==> LevelName(l) != ToUpper(word)
  {
    var w := ToUpper(word);
    if w == "ERROR" then Some(Error)
    else if w == "WARNING" then Some(Warning)
    else if w == "INFO" then Some(Info)
    else if w == "DEBUG" then Some(Debug)
    else None
  }

  /** The command a trimmed ':' line names, as `execute_command` decides
      it: quit, write (with an optional trimmed file name), a level
      filter, clearing the filter, or a line number; anything else, bare
      "fl" included, names nothing. */
  function ParseCommand(cmd: string): (r: Option<CommandResult>)
    ensures r == Some(Quit) <==> cmd == "q" || cmd == "quit"
    ensures r.Some? ==> !r.value.Search?
  {
    if cmd == "q" || cmd == "quit" then Some(Quit)
    else if cmd == "w" || StartsWith(cmd, "w ") then
      match StripPrefix(cmd, "w ")
      case Some(rest) => Some(WriteLogs(Some(Trim(rest))))
      case None => Some(WriteLogs(None))
    else if cmd == "fl" || StartsWith(cmd, "filter level=") then
      match StripPrefix(cmd, "filter level=")
      case Some(word) =>
        (match FilterLevel(word)
         case Some(l) => Some(ApplyFilter(LevelFilter(l)))
         case None => None)
      case None => None
    else if cmd == "nofilter" || cmd == "nf" then Some(ClearFilter)
    else match ParseUsize(cmd)
      case Some(n) => Some(GotoLine(n))
      case None => None
  }

  /** `execute_command`: the trimmed buffer decides the result, and the
      state always returns to Normal with an empty buffer. */
  function ExecuteCommand(v: VimState): (r: (Option<CommandResult>, VimState))
    ensures r.0 == ParseCommand(Trim(v.inputBuffer))
    ensures r.1 == ExitToNormal(v)
  {
    (ParseCommand(Trim(v.inputBuffer)), ExitToNormal(v))
  }

  /** Writing the logs: bare "w" writes to the default place, and "w "
      followed by a name writes to that name trimmed; no other command
      writes. */
  lemma WriteCommand(cmd: string)
    ensures var r := ParseCommand(cmd);
      && (r.Some? && r.value.WriteLogs? <==> cmd == "w" || StartsWith(cmd, "w "))
      && (r == Some(WriteLogs(None)) <==> cmd == "w")
      && (StartsWith(cmd, "w ") ==> r == Some(WriteLogs(Some(Trim(cmd[2..])))))
  {
    if StartsWith(cmd, "w ") {
      assert cmd[0] == 'w';
      assert cmd != "q" && cmd != "quit";
    }
  }

  /** "nofilter" and "nf" clear the filter, and nothing else does. */
  lemma ClearCommand(cmd: string)
    ensures ParseCommand(cmd) == Some(ClearFilter) <==> cmd == "nofilter" || cmd == "nf"
  {
    if cmd == "nofilter" || cmd == "nf" {
      assert cmd[0] == 'n';
      assert !StartsWith(cmd, "w ") && !StartsWith(cmd, "filter level=");
    }
  }

  /** A command that is none of the words is a line number exactly when it
      parses as a `usize`. */
  lemma GotoCommand(cmd: string)
    ensures var r := ParseCommand(cmd);
      (r.Some? && r.value.GotoLine? ==> ParseUsize(cmd) == Some(r.value.line))
      && (ParseUsize(cmd).Some? ==> r == Some(GotoLine(ParseUsize(cmd).value)))
  {
    if ParseUsize(cmd).Some? {
      var digits := if |cmd| > 0 && cmd[0] == '+' then cmd[1..] else cmd;
      assert |digits| > 0 && AllDigits(digits);
      if cmd == "q" || cmd == "quit" || cmd == "w" || cmd == "fl" || cmd == "nofilter" || cmd == "nf" || StartsWith(cmd, "w ") || StartsWith(cmd, "filter level=") {
        assert false;
      }
    }
  }

  /** "filter level=" followed by a word applies a level filter exactly
      when the word upper-cases to the name of a level other than FATAL. */
  lemma FilterCommand(word: string, l: LogLevel)
    ensures ParseCommand("filter level=" + word) == Some(ApplyFilter(LevelFilter(l)))
        <==> l != Fatal && ToUpper(word) == LevelName(l)
  {
    var cmd := "filter level=" + word;
    assert cmd[..|"filter level="|] == "filter level=";
    assert cmd[|"filter level="|..] == word;
    assert cmd != "q" && cmd != "quit" && cmd != "w" && cmd != "fl";
    assert !StartsWith(cmd, "w ") by {
      assert cmd[0] == 'f';
    }
    LevelNameRoundTrip(l);
    if FilterLevel(word).Some? {
      LevelNameRoundTrip(FilterLevel(word).value);
    }
  }

  /** The program's own examples: "123" goes to line 123, "q" quits,
      "invalid" and a bare "fl" name nothing. */
  lemma CommandExamples()
    ensures ParseCommand("123") == Some(GotoLine(123))
    ensures ParseCommand("q") == Some(Quit)
    ensures ParseCommand("invalid") == None
    ensures ParseCommand("fl") == None
  {
    assert ParseUsize("123") == Some(123) by {
      assert AllDigits("123");
      assert "123"[..2] == "12" && "12"[..1] == "1" && "1"[..0] == "";
      assert DigitsValue("1") == 1;
      assert DigitsValue("12") == 12;
      assert DigitsValue("123") == 123;
    }
    assert ParseUsize("invalid") == None by {
      assert !IsDigit("invalid"[0]);
    }
    assert !StartsWith("invalid", "w ") && !StartsWith("invalid", "filter level=");
    assert StripPrefix("fl", "filter level=") == None;
  }

  // ---------------------------------------------------------------------
  // '/' search
  // ---------------------------------------------------------------------

  /** `execute_search`. An empty trimmed pattern returns to Normal and
      changes nothing else. Otherwise the pattern is stored and the search
      position reset before the case-insensitive expression is compiled;
      if it does not compile, the state stays in its mode with its buffer.
      `compiles` stands for the regular-expression compiler. */
  function ExecuteSearch(v: VimState, compiles: string -> bool): (r: (Option<CommandResult>, VimState))
    ensures var pattern := Trim(v.inputBuffer);
      && (r.0.Some? <==> |pattern| > 0 && compiles("(?i)" + pattern))
      && (r.0.Some? ==> r.0.value == CommandResult.Search(pattern, PatternFilter("(?i)" + pattern, false)))
      && (|pattern| == 0 ==> r.1 == ExitToNormal(v))
      && (|pattern| > 0 ==> r.1.searchPattern == Some(pattern) && r.1.searchIndex == 0)
      && (|pattern| > 0 && r.0.None? ==> r.1.mode == v.mode && r.1.inputBuffer == v.inputBuffer)
      && (r.0.Some? ==> r.1.mode == Normal && r.1.inputBuffer == "")
      && r.1.pending == v.pending && r.1.countBuffer == v.countBuffer
  {
    var pattern := Trim(v.inputBuffer);
    if |pattern| == 0 then (None, ExitToNormal(v))
    else
      var v' := v.(searchPattern := Some(pattern), searchIndex := 0);
      match NewPatternFilter(pattern, false, compiles)
      case Ok(filter) => (Some(CommandResult.Search(pattern, filter)), ExitToNormal(v'))
      case Err(_) => (None, v')
  }

  /** The filter a successful search hands back keeps exactly the entries
      whose message or raw line the case-insensitive expression matches. */
  lemma SearchFilterMatches(v: VimState, compiles: string -> bool, e: LogEntry, isMatch: Matcher)
    requires ExecuteSearch(v, compiles).0.Some?
    ensures var source := "(?i)" + Trim(v.inputBuffer);
      (Matches(ExecuteSearch(v, compiles).0.value.filter, e, isMatch)
       <==> isMatch(source, e.message) || isMatch(source, e.rawLine))
  {
  }

  /** `next_search` and `prev_search`: the position moves by one, and never
      below zero. */
  function NextSearch(v: VimState): (r: VimState)
    ensures r.searchIndex == v.searchIndex + 1
    ensures r.(searchIndex := v.searchIndex) == v
  {
    v.(searchIndex := v.searchIndex + 1)
  }

  function PrevSearch(v: VimState): (r: VimState)
    ensures r.searchIndex == if v.searchIndex > 0 then v.searchIndex - 1 else 0
    ensures r.(searchIndex := v.searchIndex) == v
  {
    if v.searchIndex > 0 then v.(searchIndex := v.searchIndex - 1) else v
  }

  /** Stepping back undoes stepping forward. */
  lemma PrevUndoesNext(v: VimState)
    ensures PrevSearch(NextSearch(v)) == v
  {
  }

  // ---------------------------------------------------------------------
  // Pending key sequence
  // ---------------------------------------------------------------------

  function StartSequence(v: VimState, k: KeyPress): (r: VimState)
    ensures r.pending == Some(NewPending(k))
    ensures r.(pending := v.pending) == v
  {
    v.(pending := Some(NewPending(k)))
  }

  /** `add_to_sequence`: extends a pending sequence, and does nothing when
      there is none. */
  function AddToSequence(v: VimState, k: KeyPress): (r: VimState)
    ensures v.pending.Some? ==> r.pending == Some(PendingSequence(v.pending.value.keys + [k]))
    ensures v.pending.None? ==> r == v
    ensures r.(pending := v.pending) == v
  {
    match v.pending
    case Some(p) => v.(pending := Some(AddKey(p, k)))
    case None => v
  }

  function ClearSequence(v: VimState): (r: VimState)
    ensures r.pending == None && r.(pending := v.pending) == v
  {
    v.(pending := None)
  }

  /** `is_sequence_timeout`, with the clock reduced to whether the pending
      sequence is older than the timeout: only a pending sequence can time
      out. */
  predicate IsSequenceTimeout(v: VimState, expired: bool)
  {
    v.pending.Some? && expired
  }

  /** `get_sequence_display`. */
  function SequenceDisplay(v: VimState): (r: Option<string>)
    ensures r.Some? <==> v.pending.Some?
    ensures r.Some? ==> r.value == PendingDisplay(v.pending.value)
  {
    match v.pending
    case Some(p) => Some(PendingDisplay(p))
    case None => None
  }

  // ---------------------------------------------------------------------
  // Count prefix
  // ---------------------------------------------------------------------

  /** `push_count_digit`: ASCII digits are appended, anything else is
      ignored. */
  function PushCountDigit(v: VimState, c: char): (r: VimState)
    ensures IsDigit(c) ==> r.countBuffer == v.countBuffer + [c]
    ensures !IsDigit(c) ==> r == v
    ensures r.(countBuffer := v.countBuffer) == v
  {
    if IsDigit(c) then v.(countBuffer := v.countBuffer + [c]) else v
  }

  /** `get_count`: the count buffer as a `usize`, and 1 when it does not
      parse — when it is empty, and also when it is too large. */
  function GetCount(v: VimState): (n: nat)
    ensures n <= USIZE_MAX
    ensures |v.countBuffer| == 0 ==> n == 1
    ensures AllDigits(v.countBuffer) && |v.countBuffer| > 0 && DigitsValue(v.countBuffer) <= USIZE_MAX
            ==> n == DigitsValue(v.countBuffer)
    ensures AllDigits(v.countBuffer) && DigitsValue(v.countBuffer) > USIZE_MAX ==> n == 1
  {
    match ParseUsize(v.countBuffer)
    case Some(n) => n
    case None => 1
  }

  function ClearCount(v: VimState): (r: VimState)
    ensures r.countBuffer == "" && r.(countBuffer := v.countBuffer) == v
  {
    v.(countBuffer := "")
  }

  predicate HasCount(v: VimState)
  {
    |v.countBuffer| > 0
  }

  /** `get_count_display`. */
  function CountDisplay(v: VimState): (r: Option<string>)
    ensures r.Some? <==> HasCount(v)
    ensures r.Some? ==> r.value == v.countBuffer
  {
    if HasCount(v) then Some(v.countBuffer) else None
  }

  /** A count buffer as the input handler keeps it: decimal digits, the
      first of them not zero. */
  predicate WellFormedCount(s: string)
  {
    AllDigits(s) && (|s| > 0 ==> s[0] != '0')
  }

  lemma {:induction false} LeadingDigitBound(s: string)
    requires WellFormedCount(s) && |s| > 0
    ensures DigitsValue(s) >= 1
    decreases |s|
  {
    if |s| > 1 {
      var init := s[..|s| - 1];
      assert init[0] == s[0];
      LeadingDigitBound(init);
    }
  }

  /** The count grows as a decimal number while it fits in a `usize`, and
      a well-formed count is never zero, so a counted action always moves
      at least one step. */
  lemma CountAccumulates(v: VimState, c: char)
    requires AllDigits(v.countBuffer) && IsDigit(c)
    ensures var r := PushCountDigit(v, c);
      (DigitsValue(r.countBuffer) <= USIZE_MAX ==>
        GetCount(r) == DigitsValue(v.countBuffer) * 10 + DigitValue(c))
      && (DigitsValue(r.countBuffer) > USIZE_MAX ==> GetCount(r) == 1)
    ensures WellFormedCount(v.countBuffer) ==> GetCount(v) >= 1
  {
    var r := PushCountDigit(v, c);
    assert r.countBuffer[..|r.countBuffer| - 1] == v.countBuffer;
    if WellFormedCount(v.countBuffer) && |v.countBuffer| > 0 {
      LeadingDigitBound(v.countBuffer);
    }
  }

  /** A fresh state counts 1. */
  lemma FreshCountIsOne()
    ensures GetCount(NewVim()) == 1
  {
    assert NewVim().countBuffer == "";
  }

  /** '4' then '2' makes 42. */
  lemma CountFortyTwo()
    ensures GetCount(PushCountDigit(PushCountDigit(NewVim(), '4'), '2')) == 42
  {
    var v4 := PushCountDigit(NewVim(), '4');
    assert v4.countBuffer == "4";
    CountAccumulates(NewVim(), '4');
    assert GetCount(v4) == 4;
    var v42 := PushCountDigit(v4, '2');
    assert v42.countBuffer == "42";
    assert v42.countBuffer[..1] == "4";
    assert DigitsValue(v42.countBuffer) == 42;
    CountAccumulates(v4, '2');
  }

  /** '1' then '0' displays "10". */
  lemma CountDisplayTen()
    ensures CountDisplay(PushCountDigit(PushCountDigit(NewVim(), '1'), '0')) == Some("10")
  {
    assert PushCountDigit(PushCountDigit(NewVim(), '1'), '0').countBuffer == "10";
  }

  /** Clearing brings the count back to 1. */
  lemma ClearedCountIsOne()
    ensures GetCount(ClearCount(PushCountDigit(NewVim(), '4'))) == 1
  {
  }
}
