/** Keyboard handling of the interactive branch picker (`src/tui/input.rs`):
    a terminal event becomes one of five picker actions. Only the parts of a
    terminal event the mapping looks at are modelled: the key code, the
    modifier keys held, and whether the event is a key event at all. */
module TuiInput {
  /** What the picker does in response to an event. */
  datatype AppAction = MoveUp | MoveDown | Select | Quit | None

  /** The key codes the mapping distinguishes, plus the common others. */
  datatype KeyCode =
    | Up | Down | Left | Right | Enter | Esc | Backspace | Tab
    | Char(c: char)
    | F(n: nat)
    | OtherKey

  datatype KeyModifier = Shift | Control | Alt | Super | Hyper | Meta

  datatype KeyEvent = KeyEvent(code: KeyCode, modifiers: set<KeyModifier>)

  /** A terminal event: a key press, or something that is not one. */
  datatype Event =
    | Key(key: KeyEvent)
    | FocusGained
    | FocusLost
    | Mouse
    | Paste(text: string)
    | Resize(columns: nat, rows: nat)

  predicate IsCtrlC(key: KeyEvent) {
    Control in key.modifiers && key.code == Char('c')
  }

  /** `handle_key`: Ctrl+C quits before any other rule; arrows and the vi keys
      move, Enter selects, `q` and Esc quit, and every other key does nothing.
      Modifiers matter for Ctrl+C only. */
  function HandleKey(key: KeyEvent): (a: AppAction)
    ensures a == Quit <==> IsCtrlC(key) || key.code == Char('q') || key.code == Esc
    ensures a == MoveUp <==> key.code == Up || key.code == Char('k')
    ensures a == MoveDown <==> key.code == Down || key.code == Char('j')
    ensures a == Select <==> key.code == Enter
    ensures a == None <==>
      !IsCtrlC(key) && key.code !in {Up, Char('k'), Down, Char('j'), Enter, Char('q'), Esc}
  {
    if IsCtrlC(key) then Quit
    else match key.code
      case Up => MoveUp
      case Char('k') => MoveUp
      case Down => MoveDown
      case Char('j') => MoveDown
      case Enter => Select
      case Char('q') => Quit
      case Esc => Quit
      case _ => None
  }

  /** `handle_event`: key events go through `HandleKey`; every other event does
      nothing. */
  function HandleEvent(e: Event): (a: AppAction)
    ensures !e.Key? ==> a == None
    ensures e.Key? ==> a == HandleKey(e.key)
  {
    match e
    case Key(k) => HandleKey(k)
    case _ => None
  }

  /** Apart from Ctrl+C, holding modifier keys never changes the action. */
  lemma ModifiersOnlyMatterForCtrlC(code: KeyCode, m1: set<KeyModifier>, m2: set<KeyModifier>)
    requires code != Char('c')
    ensures HandleKey(KeyEvent(code, m1)) == HandleKey(KeyEvent(code, m2))
  {
  }

  /** A plain `c` does nothing; with Control held it quits. */
  lemma CtrlCQuitsPlainCDoesNothing(m: set<KeyModifier>)
    ensures HandleKey(KeyEvent(Char('c'), m)) == (if Control in m then Quit else None)
  {
  }
}
