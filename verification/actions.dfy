/**
 * What a key press asks the interface to do. It sits in a module of its
 * own because the key-binding tables and the input handler both use it,
 * and the handler also uses the tables.
 */
module Actions {
  /** `InputAction`. The variant the program calls `None` ("no action") is
      `NoAction` here, so that it cannot be confused with an absent option.
      Tab numbers and counts are `usize` values, modelled as `nat`. */
  datatype InputAction =
    | Quit
    | SwitchTab(tab: nat)
    | NextTab
    | PrevTab
    | EnterCommand
    | EnterSearch
    | ExecuteCommand
    | ExecuteSearch
    | CancelInput
    | InsertChar(ch: char)
    | Backspace
    | NextSearch
    | PrevSearch
    | OpenFile
    | YankLine
    | OpenBuildMenu
    | OpenExecMenu
    | ScrollUp
    | ScrollDown
    | ScrollPageUp
    | ScrollPageDown
    | ScrollHalfPageUp
    | ScrollHalfPageDown
    | ScrollToTop
    | ScrollToBottom
    | ScrollToMiddle
    | ScrollToViewportTop
    | ScrollToViewportMiddle
    | ScrollToViewportBottom
    | ScrollUpCount(n: nat)
    | ScrollDownCount(n: nat)
    | ScrollPageUpCount(n: nat)
    | ScrollPageDownCount(n: nat)
    | ScrollHalfPageUpCount(n: nat)
    | ScrollHalfPageDownCount(n: nat)
    | WriteLogs
    | CleanBuild
    | Rebuild
    | ShowHelp
    | RestartExec
    | KillExec
    | NoAction

  /** The six scroll actions that take a repeat count. */
  predicate Countable(a: InputAction)
  {
    a.ScrollUp? || a.ScrollDown? || a.ScrollPageUp? || a.ScrollPageDown?
    || a.ScrollHalfPageUp? || a.ScrollHalfPageDown?
  }

  /** The counted variants of those six. */
  predicate Counted(a: InputAction)
  {
    a.ScrollUpCount? || a.ScrollDownCount? || a.ScrollPageUpCount? || a.ScrollPageDownCount?
    || a.ScrollHalfPageUpCount? || a.ScrollHalfPageDownCount?
  }

  /** The scroll a counted action repeats: each counted variant names the
      countable action it was made from. */
  function Uncount(a: InputAction): (r: InputAction)
    requires Counted(a)
    ensures Countable(r)
  {
    match a
    case ScrollUpCount(_) => ScrollUp
    case ScrollDownCount(_) => ScrollDown
    case ScrollPageUpCount(_) => ScrollPageUp
    case ScrollPageDownCount(_) => ScrollPageDown
    case ScrollHalfPageUpCount(_) => ScrollHalfPageUp
    case ScrollHalfPageDownCount(_) => ScrollHalfPageDown
  }
}
