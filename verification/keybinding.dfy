/**
 * Key presses and the three binding tables of the interface: leader
 * bindings (the leader key followed by one key), vim-style multi-key
 * sequences, and single keys. The wall-clock timestamp of a pending
 * sequence is not modelled: whether it has timed out is an input of the
 * input handler.
 */
module Keybindings {
  import opened Common
  import opened Actions

  /** Terminal key modifiers; a set of them stands for the bit flags. */
  datatype Modifier = Shift | Control | Alt | Super | Hyper | Meta

  /** The terminal's key codes. Media keys and lone modifier keys are not
      modelled. */
  datatype KeyCode =
    | Char(ch: char)
    | Enter
    | Esc
    | Backspace
    | Left
    | Right
    | Up
    | Down
    | Home
    | End
    | PageUp
    | PageDown
    | Tab
    | BackTab
    | Delete
    | Insert
    | F(number: nat)
    | Null
    | CapsLock
    | ScrollLock
    | NumLock
    | PrintScreen
    | Pause
    | Menu
    | KeypadBegin

  datatype KeyPress = KeyPress(code: KeyCode, modifiers: set<Modifier>)

  /** `KeyPress::from_char`: a character without modifiers. */
  function FromChar(c: char): KeyPress
  {
    KeyPress(Char(c), {})
  }

  function WithModifier(c: char, m: Modifier): KeyPress
  {
    KeyPress(Char(c), {m})
  }

  function Plain(code: KeyCode): KeyPress
  {
    KeyPress(code, {})
  }

  predicate IsAscii(c: char)
  {
    (c as int) < 0x80
  }

  /** Bytes one character takes in UTF-8. */
  function Utf8Width(c: char): nat
  {
    if c as int < 0x80 then 1
    else if c as int < 0x800 then 2
    else if c as int < 0x10000 then 3
    else 4
  }

  /** `str::len`: the UTF-8 length. Exactly one byte means exactly one
      ASCII character. */
  function ByteLength(s: string): (n: nat)
    ensures n >= |s|
    ensures n == 1 <==> |s| == 1 && IsAscii(s[0])
  {
    if |s| == 0 then 0 else Utf8Width(s[0]) + ByteLength(s[1..])
  }

  /** `KeyPress::from_string`: the names "Space", "Backslash", "Enter" and
      "Esc", or a one-byte string standing for its character; never a
      modifier. */
  function FromString(s: string): (r: Option<KeyPress>)
    ensures r.Some? ==> r.value.modifiers == {}
    ensures r.Some? <==> s == "Space" || s == "Backslash" || s == "Enter" || s == "Esc"
                         || (|s| == 1 && IsAscii(s[0]))
    ensures |s| == 1 && IsAscii(s[0]) ==> r == Some(FromChar(s[0]))
    ensures s == "Space" ==> r == Some(FromChar(' '))
    ensures s == "Backslash" ==> r == Some(FromChar('\\'))
    ensures s == "Enter" ==> r == Some(Plain(Enter))
    ensures s == "Esc" ==> r == Some(Plain(Esc))
  {
    if s == "Space" then Some(FromChar(' '))
    else if s == "Backslash" then Some(FromChar('\\'))
    else if s == "Enter" then Some(Plain(Enter))
    else if s == "Esc" then Some(Plain(Esc))
    else if ByteLength(s) == 1 then Some(FromChar(s[0]))
    else None
  }

  /** `KeyPress::to_display_string`: the space and the named editing keys
      in angle brackets, any other character as itself, and the remaining
      keys by their debug names. Modifiers are not shown. */
  function ToDisplayString(k: KeyPress): (r: string)
    ensures |r| > 0
    ensures k.code.Char? && k.code.ch != ' ' ==> r == [k.code.ch]
    ensures |r| == 1 <==> k.code.Char? && k.code.ch != ' '
    ensures k.code == Char(' ') ==> r == "<Space>"
    ensures k.code == Enter ==> r == "<Enter>"
    ensures k.code == Esc ==> r == "<Esc>"
    ensures k.code == KeyCode.Backspace ==> r == "<Backspace>"
    ensures |r| > 1 && r[0] == '<' <==> k.code == Char(' ') || k.code.Enter? || k.code.Esc? || k.code.Backspace?
  {
    match k.code
    case Char(c) => if c == ' ' then "<Space>" else [c]
    case Enter => "<Enter>"
    case Esc => "<Esc>"
    case Backspace => "<Backspace>"
    case Left => "Left"
    case Right => "Right"
    case Up => "Up"
    case Down => "Down"
    case Home => "Home"
    case End => "End"
    case PageUp => "PageUp"
    case PageDown => "PageDown"
    case Tab => "Tab"
    case BackTab => "BackTab"
    case Delete => "Delete"
    case Insert => "Insert"
    case F(n) => "F(" + NatToString(n) + ")"
    case Null => "Null"
    case CapsLock => "CapsLock"
    case ScrollLock => "ScrollLock"
    case NumLock => "NumLock"
    case PrintScreen => "PrintScreen"
    case Pause => "Pause"
    case Menu => "Menu"
    case KeypadBegin => "KeypadBegin"
  }

  /** The display of a function key names its number. */
  lemma FunctionKeyDisplay(a: nat, b: nat)
    requires ToDisplayString(Plain(F(a))) == ToDisplayString(Plain(F(b)))
    ensures a == b
  {
    var da := ToDisplayString(Plain(F(a)));
    assert da[2..|da| - 1] == NatToString(a);
    assert NatToString(a) == NatToString(b);
    DigitsValueOfNatToString(a);
    DigitsValueOfNatToString(b);
  }

  /** The key names accepted in configuration round-trip through the
      display only for plain ASCII characters other than the space: the
      space displays as "<Space>" but is configured as "Space", and the
      same bracketing keeps Enter and Esc from round-tripping. */
  lemma FromStringOfDisplay(c: char)
    ensures IsAscii(c) && c != ' ' ==> FromString(ToDisplayString(FromChar(c))) == Some(FromChar(c))
    ensures FromString(ToDisplayString(FromChar(' '))) == None
    ensures FromString(ToDisplayString(Plain(Enter))) == None
    ensures FromString(ToDisplayString(Plain(Esc))) == None
  {
    assert ToDisplayString(FromChar(' ')) == "<Space>";
    assert ToDisplayString(Plain(Enter)) == "<Enter>";
    assert ToDisplayString(Plain(Esc)) == "<Esc>";
  }

  // ---------------------------------------------------------------------
  // Binding tables
  // ---------------------------------------------------------------------

  datatype SequenceMatch = Complete(action: InputAction) | Partial | NoMatch

  datatype KeyBindingManager = KeyBindingManager(
    leaderKey: KeyPress,
    sequenceTimeout: nat,
    leaderBindings: map<KeyPress, InputAction>,
    vimSequences: map<seq<KeyPress>, InputAction>,
    singleKeyBindings: map<KeyPress, InputAction>,
    enableLeader: bool)

  /** The leader bindings installed when the leader is enabled. */
  const LEADER_TABLE: map<KeyPress, InputAction> := map[
    FromChar('f') := OpenFile,
    FromChar('w') := WriteLogs,
    FromChar('c') := CleanBuild,
    FromChar('r') := Rebuild,
    FromChar('q') := Quit,
    FromChar('b') := OpenBuildMenu,
    FromChar('e') := OpenExecMenu,
    FromChar('?') := ShowHelp]

  const VIM_TABLE: map<seq<KeyPress>, InputAction> := map[
    [FromChar('g'), FromChar('f')] := OpenFile,
    [FromChar('y'), FromChar('y')] := YankLine,
    [FromChar('g'), FromChar('g')] := ScrollToTop,
    [FromChar('z'), FromChar('z')] := ScrollToMiddle,
    [FromChar('z'), FromChar('t')] := ScrollToViewportTop,
    [FromChar('z'), FromChar('b')] := ScrollToViewportBottom]

  const SINGLE_TABLE: map<KeyPress, InputAction> := map[
    FromChar('q') := Quit,
    FromChar('b') := OpenBuildMenu,
    FromChar('e') := OpenExecMenu,
    WithModifier('1', Alt) := SwitchTab(0),
    WithModifier('2', Alt) := SwitchTab(1),
    WithModifier('3', Alt) := SwitchTab(2),
    WithModifier('4', Alt) := SwitchTab(3),
    WithModifier('5', Alt) := SwitchTab(4),
    FromChar(':') := EnterCommand,
    FromChar('/') := EnterSearch,
    FromChar('n') := NextSearch,
    WithModifier('N', Shift) := PrevSearch,
    WithModifier('G', Shift) := ScrollToBottom,
    FromChar('j') := ScrollDown,
    Plain(Down) := ScrollDown,
    FromChar('k') := ScrollUp,
    Plain(Up) := ScrollUp,
    WithModifier('d', Control) := ScrollHalfPageDown,
    WithModifier('u', Control) := ScrollHalfPageUp,
    WithModifier('f', Control) := ScrollPageDown,
    WithModifier('b', Control) := ScrollPageUp,
    Plain(PageDown) := ScrollPageDown,
    Plain(PageUp) := ScrollPageUp,
    Plain(Home) := ScrollToTop,
    Plain(End) := ScrollToBottom,
    WithModifier('c', Control) := Quit,
    WithModifier('L', Shift) := NextTab,
    WithModifier('H', Shift) := PrevTab]

  /** `KeyBindingManager::new` with its default bindings: leader bindings
      only when the leader is enabled, the vim sequences and single keys
      always. */
  function NewManager(leader: KeyPress, timeout: nat, enableLeader: bool): (m: KeyBindingManager)
    ensures m.leaderKey == leader && m.sequenceTimeout == timeout && m.enableLeader == enableLeader
    ensures m.leaderBindings != map[] <==> enableLeader
    ensures !enableLeader ==> forall k :: !IsLeaderKey(m, k)
    ensures m.vimSequences == VIM_TABLE && m.singleKeyBindings == SINGLE_TABLE
  {
    assert FromChar('f') in LEADER_TABLE;
    KeyBindingManager(leader, timeout, if enableLeader then LEADER_TABLE else map[],
                      VIM_TABLE, SINGLE_TABLE, enableLeader)
  }

  /** `Default`: the space as an enabled leader, a 1000 ms timeout. */
  function DefaultManager(): (m: KeyBindingManager)
    ensures m.sequenceTimeout == 1000 && m.leaderBindings != map[]
    ensures forall k :: IsLeaderKey(m, k) <==> k == FromChar(' ')
  {
    NewManager(FromChar(' '), 1000, true)
  }

  /** `is_leader_key`: never true while the leader is disabled. */
  predicate IsLeaderKey(m: KeyBindingManager, k: KeyPress)
  {
    m.enableLeader && k == m.leaderKey
  }

  /** `s` is a proper prefix of `longer`. */
  predicate ProperPrefix(s: seq<KeyPress>, longer: seq<KeyPress>)
  {
    |longer| > |s| && longer[..|s|] == s
  }

  /** Some registered sequence continues `s`. */
  predicate ContinuesSome(seqs: map<seq<KeyPress>, InputAction>, s: seq<KeyPress>)
  {
    exists v :: v in seqs && ProperPrefix(s, v)
  }

  /** `match_sequence`. A sequence that starts with the leader and is at
      most two keys long is looked up among the leader bindings only;
      any other non-empty sequence is Complete when registered, Partial
      when it is a proper prefix of a registered one, and NoMatch
      otherwise. */
  function MatchSequence(m: KeyBindingManager, s: seq<KeyPress>): (r: SequenceMatch)
    ensures |s| == 0 ==> r == NoMatch
    ensures |s| == 1 && IsLeaderKey(m, s[0]) ==> r == Partial
    ensures |s| == 2 && IsLeaderKey(m, s[0]) ==>
      (r.Complete? <==> s[1] in m.leaderBindings)
      && (r.Complete? ==> r.action == m.leaderBindings[s[1]])
      && (!r.Complete? ==> r == NoMatch)
    ensures |s| > 0 && !(|s| <= 2 && IsLeaderKey(m, s[0])) ==>
      (r.Complete? <==> s in m.vimSequences)
      && (r.Complete? ==> r.action == m.vimSequences[s])
      && (r == Partial <==> s !in m.vimSequences && ContinuesSome(m.vimSequences, s))
  {
    if |s| == 0 then NoMatch
    else if |s| == 1 && IsLeaderKey(m, s[0]) then Partial
    else if |s| == 2 && IsLeaderKey(m, s[0]) then
      if s[1] in m.leaderBindings then Complete(m.leaderBindings[s[1]]) else NoMatch
    else if s in m.vimSequences then Complete(m.vimSequences[s])
    else if ContinuesSome(m.vimSequences, s) then Partial
    else NoMatch
  }

  /** `match_single_key`. */
  function MatchSingleKey(m: KeyBindingManager, k: KeyPress): (r: Option<InputAction>)
    ensures r.Some? <==> k in m.singleKeyBindings
    ensures r.Some? ==> r.value == m.singleKeyBindings[k]
  {
    if k in m.singleKeyBindings then Some(m.singleKeyBindings[k]) else None
  }

  /** `add_leader_binding`, `add_vim_sequence`, `add_single_key_binding`:
      insert or replace one binding. */
  function AddLeaderBinding(m: KeyBindingManager, k: KeyPress, a: InputAction): (r: KeyBindingManager)
    ensures r.leaderBindings.Keys == m.leaderBindings.Keys + {k} && r.leaderBindings[k] == a
    ensures r.(leaderBindings := m.leaderBindings) == m
  {
    m.(leaderBindings := m.leaderBindings[k := a])
  }

  function AddVimSequence(m: KeyBindingManager, s: seq<KeyPress>, a: InputAction): (r: KeyBindingManager)
    ensures r.vimSequences.Keys == m.vimSequences.Keys + {s} && r.vimSequences[s] == a
    ensures r.(vimSequences := m.vimSequences) == m
  {
    m.(vimSequences := m.vimSequences[s := a])
  }

  function AddSingleKeyBinding(m: KeyBindingManager, k: KeyPress, a: InputAction): (r: KeyBindingManager)
    ensures r.singleKeyBindings.Keys == m.singleKeyBindings.Keys + {k} && r.singleKeyBindings[k] == a
    ensures r.(singleKeyBindings := m.singleKeyBindings) == m
  {
    m.(singleKeyBindings := m.singleKeyBindings[k := a])
  }

  /** A sequence added to the table is matched completely afterwards,
      unless the leader claims it, and a leader binding added while the
      leader is enabled completes the two-key leader sequence. */
  lemma AddedBindingsMatch(m: KeyBindingManager, s: seq<KeyPress>, k: KeyPress, a: InputAction)
    ensures |s| > 0 && !(|s| <= 2 && IsLeaderKey(m, s[0])) ==>
      MatchSequence(AddVimSequence(m, s, a), s) == Complete(a)
    ensures m.enableLeader ==>
      MatchSequence(AddLeaderBinding(m, k, a), [m.leaderKey, k]) == Complete(a)
    ensures MatchSingleKey(AddSingleKeyBinding(m, k, a), k) == Some(a)
  {
    var r := AddLeaderBinding(m, k, a);
    assert [m.leaderKey, k][1] == k;
    if m.enableLeader {
      assert IsLeaderKey(r, [m.leaderKey, k][0]);
    }
  }

  /** The default leader bindings, as the program's own checks exercise
      them: the leader alone waits, the leader and 'f' opens a file, and a
      key without a leader binding ends the sequence. */
  lemma DefaultLeaderBindings()
    ensures var m := DefaultManager();
      && MatchSequence(m, [FromChar(' ')]) == Partial
      && MatchSequence(m, [FromChar(' '), FromChar('f')]) == Complete(OpenFile)
      && MatchSequence(m, [FromChar(' '), FromChar('x')]) == NoMatch
  {
    var m := DefaultManager();
    assert m.leaderBindings == LEADER_TABLE;
    assert FromChar('f') in m.leaderBindings;
    assert FromChar('x') !in m.leaderBindings;
  }

  /** The six default vim sequences, and 'g' waiting for its second key. */
  lemma DefaultVimSequences()
    ensures var m := DefaultManager();
      && MatchSequence(m, [FromChar('g')]) == Partial
      && MatchSequence(m, [FromChar('g'), FromChar('f')]) == Complete(OpenFile)
      && MatchSequence(m, [FromChar('y'), FromChar('y')]) == Complete(YankLine)
      && MatchSequence(m, [FromChar('g'), FromChar('g')]) == Complete(ScrollToTop)
      && MatchSequence(m, [FromChar('z'), FromChar('z')]) == Complete(ScrollToMiddle)
      && MatchSequence(m, [FromChar('z'), FromChar('t')]) == Complete(ScrollToViewportTop)
      && MatchSequence(m, [FromChar('z'), FromChar('b')]) == Complete(ScrollToViewportBottom)
  {
    DefaultPairsGY();
    DefaultPairsZ();
    DefaultSingleKeySequences(FromChar('g'));
  }

  lemma DefaultPairsGY()
    ensures var m := DefaultManager();
      && MatchSequence(m, [FromChar('g'), FromChar('f')]) == Complete(OpenFile)
      && MatchSequence(m, [FromChar('y'), FromChar('y')]) == Complete(YankLine)
      && MatchSequence(m, [FromChar('g'), FromChar('g')]) == Complete(ScrollToTop)
  {
    DefaultPair('g', 'f', OpenFile);
    DefaultPair('y', 'y', YankLine);
    DefaultPair('g', 'g', ScrollToTop);
  }

  lemma DefaultPairsZ()
    ensures var m := DefaultManager();
      && MatchSequence(m, [FromChar('z'), FromChar('z')]) == Complete(ScrollToMiddle)
      && MatchSequence(m, [FromChar('z'), FromChar('t')]) == Complete(ScrollToViewportTop)
      && MatchSequence(m, [FromChar('z'), FromChar('b')]) == Complete(ScrollToViewportBottom)
  {
    DefaultPair('z', 'z', ScrollToMiddle);
    DefaultPair('z', 't', ScrollToViewportTop);
    DefaultPair('z', 'b', ScrollToViewportBottom);
  }

  lemma DefaultPair(c: char, d: char, a: InputAction)
    requires c != ' ' && [FromChar(c), FromChar(d)] in VIM_TABLE && VIM_TABLE[[FromChar(c), FromChar(d)]] == a
    ensures MatchSequence(DefaultManager(), [FromChar(c), FromChar(d)]) == Complete(a)
  {
    var m := DefaultManager();
    assert !IsLeaderKey(m, [FromChar(c), FromChar(d)][0]);
  }

  /** 'q' and Ctrl-c both quit. */
  lemma DefaultQuitKeys()
    ensures MatchSingleKey(DefaultManager(), FromChar('q')) == Some(Quit)
    ensures MatchSingleKey(DefaultManager(), WithModifier('c', Control)) == Some(Quit)
  {
    DefaultSingleKey(FromChar('q'), Quit);
    DefaultSingleKey(WithModifier('c', Control), Quit);
  }

  lemma DefaultSingleKey(k: KeyPress, a: InputAction)
    requires k in SINGLE_TABLE && SINGLE_TABLE[k] == a
    ensures MatchSingleKey(DefaultManager(), k) == Some(a)
  {
    assert DefaultManager().singleKeyBindings == SINGLE_TABLE;
  }

  /** In the default tables a single key other than the leader never
      completes a sequence, and it starts one exactly when it is a plain
      'g', 'y' or 'z'. */
  lemma DefaultSingleKeySequences(k: KeyPress)
    requires k != FromChar(' ')
    ensures var r := MatchSequence(DefaultManager(), [k]);
      !r.Complete? && (r == Partial <==> k == FromChar('g') || k == FromChar('y') || k == FromChar('z'))
  {
    var m := DefaultManager();
    if k == FromChar('g') || k == FromChar('y') || k == FromChar('z') {
      var v := [k, if k == FromChar('g') then FromChar('f') else k];
      assert v in m.vimSequences;
      assert ProperPrefix([k], v);
    }
  }

  // ---------------------------------------------------------------------
  // Pending sequence
  // ---------------------------------------------------------------------

  /** The keys typed so far towards a multi-key binding. */
  datatype PendingSequence = PendingSequence(keys: seq<KeyPress>)

  function NewPending(k: KeyPress): (p: PendingSequence)
    ensures p.keys == [k]
  {
    PendingSequence([k])
  }

  function AddKey(p: PendingSequence, k: KeyPress): (r: PendingSequence)
    ensures r.keys == p.keys + [k]
  {
    PendingSequence(p.keys + [k])
  }

  /** The displays of the keys, one after the other. */
  function KeysDisplay(keys: seq<KeyPress>): string
  {
    ConcatMap(ToDisplayString, keys)
  }

  /** `get_display_string`. */
  function PendingDisplay(p: PendingSequence): string
  {
    KeysDisplay(p.keys)
  }

  /** Each key added to a pending sequence extends its display by that
      key's own display. */
  lemma PendingDisplayAddKey(p: PendingSequence, k: KeyPress)
    ensures PendingDisplay(AddKey(p, k)) == PendingDisplay(p) + ToDisplayString(k)
  {
    KeysDisplayAppend(p.keys, [k]);
    assert [k][1..] == [];
    assert KeysDisplay([k]) == ToDisplayString(k) + ConcatMap(ToDisplayString, []);
  }

  /** Displaying two sequences one after the other is displaying their
      concatenation. */
  lemma KeysDisplayAppend(a: seq<KeyPress>, b: seq<KeyPress>)
    ensures KeysDisplay(a + b) == KeysDisplay(a) + KeysDisplay(b)
  {
    ConcatMapAppend(ToDisplayString, a, b);
  }

  /** The leader followed by 'f' shows as "<Space>f". */
  lemma PendingDisplayExample()
    ensures PendingDisplay(NewPending(FromChar(' '))) == "<Space>"
    ensures PendingDisplay(AddKey(NewPending(FromChar(' ')), FromChar('f'))) == "<Space>f"
  {
    var one := [FromChar(' ')];
    assert one[1..] == [];
    var two := one + [FromChar('f')];
    assert two[1..] == [FromChar('f')];
    assert two[1..][1..] == [];
  }
}
