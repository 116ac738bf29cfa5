/**
 * The key handler of the interface: in the command and search line it
 * maps editing keys to actions; otherwise it collects a count prefix,
 * follows multi-key sequences and looks keys up in the binding tables.
 * A key event is its key press (code and modifiers); whether the pending
 * sequence has timed out is an input.
 */
module Input {
  import opened Common
  import opened Actions
  import opened Keybindings
  import Vim

  /** `apply_count_to_action`: the six countable scroll actions take the
      count, every other action is returned unchanged. */
  function ApplyCount(a: InputAction, n: nat): (r: InputAction)
    ensures Countable(a) ==> Counted(r) && r.n == n && Uncount(r) == a
    ensures !Countable(a) ==> r == a
  {
    match a
    case ScrollUp => ScrollUpCount(n)
    case ScrollDown => ScrollDownCount(n)
    case ScrollPageUp => ScrollPageUpCount(n)
    case ScrollPageDown => ScrollPageDownCount(n)
    case ScrollHalfPageUp => ScrollHalfPageUpCount(n)
    case ScrollHalfPageDown => ScrollHalfPageDownCount(n)
    case _ => a
  }

  /** Applying a count keeps the direction and size of a scroll: distinct
      actions without a count stay distinct, and no countable action
      survives. */
  lemma ApplyCountInjective(a: InputAction, b: InputAction, n: nat)
    ensures ApplyCount(a, n) == ApplyCount(b, n) && !Counted(a) && !Counted(b) ==> a == b
    ensures !Countable(ApplyCount(a, n))
  {
  }

  /** `handle_input_mode`: Enter runs the command (or, on the search line,
      the search), Esc cancels, Backspace deletes, a character is typed,
      and every other key does nothing. */
  function HandleInputMode(code: KeyCode, isCommand: bool): (r: InputAction)
    ensures code == Enter ==> r == (if isCommand then ExecuteCommand else ExecuteSearch)
    ensures code == Esc ==> r == CancelInput
    ensures code == KeyCode.Backspace ==> r == InputAction.Backspace
    ensures code.Char? ==> r == InsertChar(code.ch)
    ensures r == NoAction <==> !(code.Enter? || code.Esc? || code.Backspace? || code.Char?)
  {
    match code
    case Enter => if isCommand then ExecuteCommand else ExecuteSearch
    case Esc => CancelInput
    case Backspace => InputAction.Backspace
    case Char(c) => InsertChar(c)
    case _ => NoAction
  }

  /** The action a bound key produces, and the state after it: the count
      is consumed. */
  function Fire(a: InputAction, v: Vim.VimState): (InputAction, Vim.VimState)
  {
    (ApplyCount(a, Vim.GetCount(v)), Vim.ClearCount(v))
  }

  /** `handle_key_event`. In the command or search line the vim state is
      left alone. Otherwise an expired pending sequence is dropped with the
      count; an unmodified digit extends the count (a leading '0' does
      not start one); a pending sequence is extended and completed,
      continued or abandoned; the leader, or a key that starts a
      registered sequence, opens a pending sequence; a completed
      sequence or a bound single key fires with the count applied; and any
      other key drops the count. */
  function HandleKeyEvent(key: KeyPress, v: Vim.VimState, m: KeyBindingManager,
                          isCommandMode: bool, isSearchMode: bool, expired: bool): (r: (InputAction, Vim.VimState))
    ensures isCommandMode || isSearchMode ==> r == (HandleInputMode(key.code, isCommandMode), v)
    ensures !(isCommandMode || isSearchMode) ==>
      r.1.mode == v.mode && r.1.inputBuffer == v.inputBuffer
      && r.1.searchPattern == v.searchPattern && r.1.searchIndex == v.searchIndex
  {
    if isCommandMode || isSearchMode then (HandleInputMode(key.code, isCommandMode), v)
    else NormalKey(key, AfterTimeout(v, expired), m)
  }

  /** An expired pending sequence is dropped together with the count. */
  function AfterTimeout(v: Vim.VimState, expired: bool): (w: Vim.VimState)
    ensures w.mode == v.mode && w.inputBuffer == v.inputBuffer
    ensures w.searchPattern == v.searchPattern && w.searchIndex == v.searchIndex
  {
    if Vim.IsSequenceTimeout(v, expired) then Vim.ClearCount(Vim.ClearSequence(v)) else v
  }

  /** An unmodified digit typed outside a sequence, other than a '0' that
      would start the count. */
  predicate IsCountDigit(key: KeyPress, v: Vim.VimState)
  {
    key.code.Char? && IsDigit(key.code.ch) && v.pending.None? && key.modifiers == {}
    && (Vim.HasCount(v) || key.code.ch != '0')
  }

  /** A key in normal mode, once a timed-out sequence is gone. */
  function NormalKey(key: KeyPress, v: Vim.VimState, m: KeyBindingManager): (r: (InputAction, Vim.VimState))
    ensures r.1.mode == v.mode && r.1.inputBuffer == v.inputBuffer
    ensures r.1.searchPattern == v.searchPattern && r.1.searchIndex == v.searchIndex
  {
    if IsCountDigit(key, v) then (NoAction, Vim.PushCountDigit(v, key.code.ch))
    else if v.pending.Some? then ContinueSequence(key, v, m)
    else if IsLeaderKey(m, key) then (NoAction, Vim.StartSequence(v, key))
    else FreshKey(key, v, m)
  }

  /** The key extends the pending sequence. */
  function ContinueSequence(key: KeyPress, v: Vim.VimState, m: KeyBindingManager): (r: (InputAction, Vim.VimState))
    requires v.pending.Some?
  {
    match MatchSequence(m, v.pending.value.keys + [key])
    case Complete(a) => Fire(a, Vim.ClearSequence(v))
    case Partial => (NoAction, Vim.AddToSequence(v, key))
    case NoMatch => (NoAction, Vim.ClearCount(Vim.ClearSequence(v)))
  }

  /** A key outside any sequence that is not the leader. */
  function FreshKey(key: KeyPress, v: Vim.VimState, m: KeyBindingManager): (r: (InputAction, Vim.VimState))
  {
    match MatchSequence(m, [key])
    case Complete(a) => Fire(a, v)
    case Partial => (NoAction, Vim.StartSequence(v, key))
    case NoMatch =>
      match MatchSingleKey(m, key)
      case Some(a) => Fire(a, v)
      case None => (NoAction, Vim.ClearCount(v))
  }

  /** An expired pending sequence is forgotten together with the count:
      the key is handled as if neither had been there. */
  lemma TimeoutForgets(key: KeyPress, v: Vim.VimState, m: KeyBindingManager)
    requires v.pending.Some?
    ensures HandleKeyEvent(key, v, m, false, false, true)
         == HandleKeyEvent(key, Vim.ClearCount(Vim.ClearSequence(v)), m, false, false, false)
  {
  }

  /** Without a pending sequence, an unmodified digit only extends the
      count, except a '0' that would start one. */
  lemma DigitsCount(c: char, v: Vim.VimState, m: KeyBindingManager, expired: bool)
    requires IsDigit(c) && v.pending.None?
    ensures var r := HandleKeyEvent(FromChar(c), v, m, false, false, expired);
      (Vim.HasCount(v) || c != '0') ==> r == (NoAction, Vim.PushCountDigit(v, c))
  {
  }

  /** With a pending sequence that has not expired, the key extends it:
      a complete match fires with the count and clears both, a partial one
      waits, and no match drops both. */
  lemma PendingSequenceStep(key: KeyPress, v: Vim.VimState, m: KeyBindingManager)
    requires v.pending.Some?
    ensures var s := v.pending.value.keys + [key];
      var r := HandleKeyEvent(key, v, m, false, false, false);
      match MatchSequence(m, s)
      case Complete(a) => r.0 == ApplyCount(a, Vim.GetCount(v)) && r.1.pending == None && r.1.countBuffer == ""
      case Partial => r.0 == NoAction && r.1.pending == Some(PendingSequence(s)) && r.1.countBuffer == v.countBuffer
      case NoMatch => r.0 == NoAction && r.1.pending == None && r.1.countBuffer == ""
  {
  }

  /** The leader, and a key that begins a registered sequence, open a
      pending sequence and keep the count; a key that matches nothing drops
      the count. */
  lemma SequenceStarts(key: KeyPress, v: Vim.VimState, m: KeyBindingManager)
    requires v.pending.None? && !(key.code.Char? && IsDigit(key.code.ch) && key.modifiers == {})
    ensures var r := HandleKeyEvent(key, v, m, false, false, false);
      && (IsLeaderKey(m, key) || MatchSequence(m, [key]) == Partial ==>
            r == (NoAction, Vim.StartSequence(v, key)))
      && (!IsLeaderKey(m, key) && MatchSequence(m, [key]) == NoMatch && MatchSingleKey(m, key).None? ==>
            r == (NoAction, Vim.ClearCount(v)))
  {
  }

  /** The state the handler maintains: a pending sequence is always one
      the tables can still complete, and the count is decimal digits
      without a leading zero. */
  predicate WellFormed(v: Vim.VimState, m: KeyBindingManager)
  {
    (v.pending.Some? ==> MatchSequence(m, v.pending.value.keys) == Partial)
    && Vim.WellFormedCount(v.countBuffer)
  }

  /** No table binds an action that already carries a count (the default
      tables do not). */
  predicate UncountedBindings(m: KeyBindingManager)
  {
    && (forall k :: k in m.leaderBindings ==> !Counted(m.leaderBindings[k]))
    && (forall s :: s in m.vimSequences ==> !Counted(m.vimSequences[s]))
    && (forall k :: k in m.singleKeyBindings ==> !Counted(m.singleKeyBindings[k]))
  }

  lemma DefaultUncounted()
    ensures UncountedBindings(DefaultManager())
  {
    var m := DefaultManager();
    assert m.leaderBindings == LEADER_TABLE && m.vimSequences == VIM_TABLE && m.singleKeyBindings == SINGLE_TABLE;
    assert forall a :: a in LEADER_TABLE.Values ==> !Counted(a);
    assert forall a :: a in VIM_TABLE.Values ==> !Counted(a);
    assert forall a :: a in SINGLE_TABLE.Values ==> !Counted(a);
  }

  /** Outside the command and search lines, every key keeps the state well
      formed; an action that fires leaves no pending sequence and no count,
      never carries a bare countable scroll, and a count it carries from a
      well-formed state is at least one. */
  lemma HandlerInvariant(key: KeyPress, v: Vim.VimState, m: KeyBindingManager, expired: bool)
    requires WellFormed(v, m) && UncountedBindings(m)
    ensures var r := HandleKeyEvent(key, v, m, false, false, expired);
      && WellFormed(r.1, m)
      && (r.0 != NoAction ==> r.1.pending == None && r.1.countBuffer == "")
      && !Countable(r.0)
      && (Counted(r.0) ==> r.0.n >= 1)
  {
    var v1 := AfterTimeout(v, expired);
    assert WellFormed(v1, m);
    if IsCountDigit(key, v1) {
      CountDigitInvariant(key.code.ch, v1, m);
    } else if v1.pending.Some? {
      ContinueSequenceInvariant(key, v1, m);
    } else if !IsLeaderKey(m, key) {
      FreshKeyInvariant(key, v1, m);
    }
  }

  /** The invariant one handled key leaves behind. */
  predicate StepInvariant(r: (InputAction, Vim.VimState), m: KeyBindingManager)
  {
    && WellFormed(r.1, m)
    && (r.0 != NoAction ==> r.1.pending == None && r.1.countBuffer == "")
    && !Countable(r.0)
    && (Counted(r.0) ==> r.0.n >= 1)
  }

  lemma CountDigitInvariant(c: char, v: Vim.VimState, m: KeyBindingManager)
    requires WellFormed(v, m) && IsDigit(c) && v.pending.None? && (Vim.HasCount(v) || c != '0')
    ensures StepInvariant((NoAction, Vim.PushCountDigit(v, c)), m)
  {
    var cb := v.countBuffer + [c];
    assert Vim.PushCountDigit(v, c).countBuffer == cb;
    assert cb[0] != '0';
  }

  lemma ContinueSequenceInvariant(key: KeyPress, v: Vim.VimState, m: KeyBindingManager)
    requires WellFormed(v, m) && UncountedBindings(m) && v.pending.Some?
    ensures StepInvariant(ContinueSequence(key, v, m), m)
  {
    match MatchSequence(m, v.pending.value.keys + [key])
    case Complete(a) =>
      FireInvariant(a, Vim.ClearSequence(v), m);
    case Partial =>
    case NoMatch =>
  }

  lemma FreshKeyInvariant(key: KeyPress, v: Vim.VimState, m: KeyBindingManager)
    requires WellFormed(v, m) && UncountedBindings(m) && v.pending.None? && !IsLeaderKey(m, key)
    ensures StepInvariant(FreshKey(key, v, m), m)
  {
    match MatchSequence(m, [key])
    case Complete(a) =>
      FireInvariant(a, v, m);
    case Partial =>
    case NoMatch =>
      match MatchSingleKey(m, key)
      case Some(a) =>
        FireInvariant(a, v, m);
      case None =>
  }

  lemma FireInvariant(a: InputAction, w: Vim.VimState, m: KeyBindingManager)
    requires Vim.WellFormedCount(w.countBuffer) && w.pending == None && !Counted(a)
    ensures var r := Fire(a, w);
      && WellFormed(r.1, m) && r.1.pending == None && r.1.countBuffer == ""
      && !Countable(r.0) && (Counted(r.0) ==> r.0.n >= 1)
  {
    Vim.CountAccumulates(w, '0');
    ApplyCountInjective(a, a, Vim.GetCount(w));
  }

  /** With the default bindings, "5" then "j" scrolls down five lines. */
  lemma CountedKeys()
    ensures var m := DefaultManager();
      var (a1, v1) := HandleKeyEvent(FromChar('5'), Vim.NewVim(), m, false, false, false);
      var (a2, v2) := HandleKeyEvent(FromChar('j'), v1, m, false, false, false);
      a1 == NoAction && a2 == ScrollDownCount(5) && v2.countBuffer == ""
  {
    var m := DefaultManager();
    var v0 := Vim.NewVim();
    DigitsCount('5', v0, m, false);
    var v1 := Vim.PushCountDigit(v0, '5');
    assert v1.countBuffer == "5";
    assert Vim.GetCount(v1) == 5;
    CountedScrollDown(v1);
  }

  /** With the default bindings and no pending sequence, 'j' scrolls down
      by the count and consumes it. */
  lemma CountedScrollDown(v: Vim.VimState)
    requires v.pending.None?
    ensures HandleKeyEvent(FromChar('j'), v, DefaultManager(), false, false, false)
         == (ScrollDownCount(Vim.GetCount(v)), Vim.ClearCount(v))
  {
    var m := DefaultManager();
    DefaultSingleKeySequences(FromChar('j'));
    DefaultSingleKey(FromChar('j'), ScrollDown);
    assert FreshKey(FromChar('j'), v, m) == Fire(ScrollDown, v);
  }
}
