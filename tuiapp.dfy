/** The state machine of the interactive branch picker (`src/tui/app.rs`): a
    cursor over the lines of a rendered tree, a quit flag and the branch chosen
    for checkout. Drawing, the terminal and the event loop are not modelled;
    the list widget's state is reduced to the line it shows as selected. */
module TuiApp {
  import opened Wrappers
  import opened TreeData
  import TuiInput

  /** The picker state the actions change. */
  datatype Picker = Picker(cursor: nat, shouldQuit: bool, checkoutBranch: Option<string>, selected: Option<nat>)

  /** `usize::saturating_sub(n, 1)`. */
  function LastLine(n: nat): nat {
    if n == 0 then 0 else n - 1
  }

  /** The cursor is on a line of the tree (or at 0 when there are none) and the
      list widget shows it selected. */
  predicate Inside(tree: RenderableTree, s: Picker) {
    s.cursor <= LastLine(|tree.branches|) && s.selected == Some(s.cursor)
  }

  /** A tree whose current-branch index, when present, names one of its lines. */
  predicate WellFormedTree(tree: RenderableTree) {
    tree.currentBranchIndex.Some? ==> tree.currentBranchIndex.value < |tree.branches|
  }

  /** The picker as `App::new` leaves it: on the current branch, else on the
      first line. */
  function Initial(tree: RenderableTree): (s: Picker)
    ensures tree.currentBranchIndex.Some? ==> s.cursor == tree.currentBranchIndex.value
    ensures tree.currentBranchIndex.None? ==> s.cursor == 0
    ensures !s.shouldQuit && s.checkoutBranch.None?
    ensures WellFormedTree(tree) ==> Inside(tree, s)
  {
    var cursor := tree.currentBranchIndex.UnwrapOr(0);
    Picker(cursor, false, Option.None, Some(cursor))
  }

  /** `move_up`: one line up, never below the first. */
  function AfterMoveUp(s: Picker): (r: Picker)
    ensures s.cursor > 0 ==> r.cursor + 1 == s.cursor && r.selected == Some(r.cursor)
    ensures s.cursor == 0 ==> r == s
    ensures r.shouldQuit == s.shouldQuit && r.checkoutBranch == s.checkoutBranch
  {
    if s.cursor > 0 then s.(cursor := s.cursor - 1, selected := Some(s.cursor - 1)) else s
  }

  /** `move_down`: one line down, never past the last. */
  function AfterMoveDown(tree: RenderableTree, s: Picker): (r: Picker)
    ensures s.cursor < LastLine(|tree.branches|) ==> r.cursor == s.cursor + 1 && r.selected == Some(r.cursor)
    ensures s.cursor >= LastLine(|tree.branches|) ==> r == s
    ensures r.shouldQuit == s.shouldQuit && r.checkoutBranch == s.checkoutBranch
  {
    if s.cursor < LastLine(|tree.branches|) then s.(cursor := s.cursor + 1, selected := Some(s.cursor + 1)) else s
  }

  /** `select`: the branch on the cursor's line is chosen and the picker quits;
      with the cursor on no line nothing happens. */
  function AfterSelect(tree: RenderableTree, s: Picker): (r: Picker)
    ensures s.cursor < |tree.branches| ==>
      r.checkoutBranch == Some(tree.branches[s.cursor].name) && r.shouldQuit
      && r.cursor == s.cursor && r.selected == s.selected
    ensures s.cursor >= |tree.branches| ==> r == s
  {
    if s.cursor < |tree.branches| then s.(checkoutBranch := Some(tree.branches[s.cursor].name), shouldQuit := true)
    else s
  }

  /** `quit`: only the quit flag changes. */
  function AfterQuit(s: Picker): (r: Picker)
    ensures r.shouldQuit && r == s.(shouldQuit := true)
  {
    s.(shouldQuit := true)
  }

  /** `handle_action`: each action runs exactly its own operation. */
  function Apply(tree: RenderableTree, s: Picker, a: TuiInput.AppAction): (r: Picker)
    ensures a == TuiInput.MoveUp ==> r == AfterMoveUp(s)
    ensures a == TuiInput.MoveDown ==> r == AfterMoveDown(tree, s)
    ensures a == TuiInput.Select ==> r == AfterSelect(tree, s)
    ensures a == TuiInput.Quit ==> r == AfterQuit(s)
    ensures a == TuiInput.None ==> r == s
  {
    match a
    case MoveUp => AfterMoveUp(s)
    case MoveDown => AfterMoveDown(tree, s)
    case Select => AfterSelect(tree, s)
    case Quit => AfterQuit(s)
    case None => s
  }

  /** Every action keeps a cursor that is inside the tree inside it. */
  lemma ApplyKeepsInside(tree: RenderableTree, s: Picker, a: TuiInput.AppAction)
    requires Inside(tree, s)
    ensures Inside(tree, Apply(tree, s, a))
  {
  }

  /** The result of a run of actions. */
  function Run(tree: RenderableTree, s: Picker, actions: seq<TuiInput.AppAction>): Picker
    decreases |actions|
  {
    if actions == [] then s else Run(tree, Apply(tree, s, actions[0]), actions[1..])
  }

  /** A run of actions that starts inside the tree never leaves it. */
  lemma {:induction false} RunKeepsInside(tree: RenderableTree, s: Picker, actions: seq<TuiInput.AppAction>)
    requires Inside(tree, s)
    ensures Inside(tree, Run(tree, s, actions))
    decreases |actions|
  {
    if actions != [] {
      ApplyKeepsInside(tree, s, actions[0]);
      RunKeepsInside(tree, Apply(tree, s, actions[0]), actions[1..]);
    }
  }

  /** Once the picker has decided to quit it stays decided, and a chosen branch
      stays chosen. */
  lemma {:induction false} RunKeepsQuit(tree: RenderableTree, s: Picker, actions: seq<TuiInput.AppAction>)
    requires s.shouldQuit
    ensures Run(tree, s, actions).shouldQuit
    ensures s.checkoutBranch.Some? ==> Run(tree, s, actions).checkoutBranch.Some?
    decreases |actions|
  {
    if actions != [] {
      RunKeepsQuit(tree, Apply(tree, s, actions[0]), actions[1..]);
    }
  }

  function Repeat(a: TuiInput.AppAction, k: nat): (r: seq<TuiInput.AppAction>)
    ensures |r| == k && forall i :: 0 <= i < k ==> r[i] == a
  {
    if k == 0 then [] else [a] + Repeat(a, k - 1)
  }

  /** `k` presses of Down from line `c` land on line `min(c + k, last)`. */
  lemma {:induction false} MoveDownRepeated(tree: RenderableTree, s: Picker, k: nat)
    requires s.cursor <= LastLine(|tree.branches|)
    ensures var r := Run(tree, s, Repeat(TuiInput.MoveDown, k));
      r.cursor == (if s.cursor + k <= LastLine(|tree.branches|) then s.cursor + k else LastLine(|tree.branches|))
      && r.shouldQuit == s.shouldQuit && r.checkoutBranch == s.checkoutBranch
    decreases k
  {
    if k > 0 {
      var actions := Repeat(TuiInput.MoveDown, k);
      assert actions[1..] == Repeat(TuiInput.MoveDown, k - 1);
      MoveDownRepeated(tree, AfterMoveDown(tree, s), k - 1);
    }
  }

  /** `k` presses of Up from line `c` land on line `max(c - k, 0)`. */
  lemma {:induction false} MoveUpRepeated(tree: RenderableTree, s: Picker, k: nat)
    ensures var r := Run(tree, s, Repeat(TuiInput.MoveUp, k));
      r.cursor == (if s.cursor >= k then s.cursor - k else 0)
      && r.shouldQuit == s.shouldQuit && r.checkoutBranch == s.checkoutBranch
    decreases k
  {
    if k > 0 {
      var actions := Repeat(TuiInput.MoveUp, k);
      assert actions[1..] == Repeat(TuiInput.MoveUp, k - 1);
      MoveUpRepeated(tree, AfterMoveUp(s), k - 1);
    }
  }

  /** Down then Up returns to the same line unless Down was stopped by the
      last line; Up then Down likewise unless Up was stopped by the first. */
  lemma MoveDownThenUp(tree: RenderableTree, s: Picker)
    requires Inside(tree, s) && s.cursor < LastLine(|tree.branches|)
    ensures AfterMoveUp(AfterMoveDown(tree, s)) == s
  {
  }

  lemma MoveUpThenDown(tree: RenderableTree, s: Picker)
    requires Inside(tree, s) && s.cursor > 0
    ensures AfterMoveDown(tree, AfterMoveUp(s)) == s
  {
  }

  /** Ctrl+C, `q` and Esc quit from any state without choosing a branch. */
  lemma QuitKeysQuit(tree: RenderableTree, s: Picker, e: TuiInput.Event)
    requires e.Key? && (TuiInput.IsCtrlC(e.key) || e.key.code == TuiInput.Char('q') || e.key.code == TuiInput.Esc)
    ensures var r := Apply(tree, s, TuiInput.HandleEvent(e));
      r.shouldQuit && r.checkoutBranch == s.checkoutBranch && r.cursor == s.cursor
  {
  }

  /** Enter on a line quits with that line's branch chosen. */
  lemma EnterChoosesCursorLine(tree: RenderableTree, s: Picker, m: set<TuiInput.KeyModifier>)
    requires s.cursor < |tree.branches|
    ensures var r := Apply(tree, s, TuiInput.HandleEvent(TuiInput.Key(TuiInput.KeyEvent(TuiInput.Enter, m))));
      r.shouldQuit && r.checkoutBranch == Some(tree.branches[s.cursor].name)
  {
  }

  /** `App`: the picker over a rendered tree. */
  class App {
    const tree: RenderableTree
    const verbose: bool
    var cursor: nat
    var shouldQuit: bool
    var checkoutBranch: Option<string>
    var selected: Option<nat>

    /** The fields the actions change, as a value. */
    function State(): Picker
      reads this
    {
      Picker(cursor, shouldQuit, checkoutBranch, selected)
    }

    /** `App::new`. */
    constructor (tree: RenderableTree, verbose: bool)
      ensures this.tree == tree && this.verbose == verbose
      ensures State() == Initial(tree)
    {
      this.tree := tree;
      this.verbose := verbose;
      var c := tree.currentBranchIndex.UnwrapOr(0);
      cursor := c;
      selected := Some(c);
      shouldQuit := false;
      checkoutBranch := Option.None;
    }

    method MoveUp()
      modifies this
      ensures State() == AfterMoveUp(old(State()))
    {
      if cursor > 0 {
        cursor := cursor - 1;
        selected := Some(cursor);
      }
    }

    method MoveDown()
      modifies this
      ensures State() == AfterMoveDown(tree, old(State()))
    {
      var last := if |tree.branches| == 0 then 0 else |tree.branches| - 1;
      if cursor < last {
        cursor := cursor + 1;
        selected := Some(cursor);
      }
    }

    method Select()
      modifies this
      ensures State() == AfterSelect(tree, old(State()))
    {
      if cursor < |tree.branches| {
        checkoutBranch := Some(tree.branches[cursor].name);
        shouldQuit := true;
      }
    }

    method Quit()
      modifies this
      ensures State() == AfterQuit(old(State()))
    {
      shouldQuit := true;
    }

    method HandleAction(action: TuiInput.AppAction)
      modifies this
      ensures State() == Apply(tree, old(State()), action)
    {
      match action
      case MoveUp => MoveUp();
      case MoveDown => MoveDown();
      case Select => Select();
      case Quit => Quit();
      case None =>
    }
  }
}
