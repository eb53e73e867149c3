/** The stack tree of `src/state.rs`: a rose tree of branch names per repository,
    the searches over it, and what `State::checkout` does to the map of trees.
    The same tree carries the two fields the sync planner and the renderer read
    from it (the cached PR number and the branch note). */
module StackState {
  import opened Wrappers
  import opened Git

  /** One node of a stack: a branch and the branches stacked on top of it. */
  datatype Branch = Branch(name: string, branches: seq<Branch>, prNumber: Option<nat>, note: Option<string>)

  /** `Branch::new`: a leaf with no cached metadata. */
  function NewBranch(name: string): (b: Branch)
    ensures b.name == name && b.branches == []
    ensures Subtrees(b) == [b]
  {
    Branch(name, [], None, None)
  }

  // ---------------------------------------------------------------------------
  // Reference definitions: the nodes of a tree in pre-order

  /** Every node of `t`, `t` first, then the subtrees of its children in order. */
  function Subtrees(t: Branch): (s: seq<Branch>)
    ensures |s| >= 1 && s[0] == t
    decreases t, 1
  {
    [t] + SubtreesOf(t.branches)
  }

  function SubtreesOf(cs: seq<Branch>): seq<Branch>
    decreases cs, 0
  {
    if cs == [] then [] else Subtrees(cs[0]) + SubtreesOf(cs[1..])
  }

  /** Some node of `t` is named `n`. */
  predicate Mentions(t: Branch, n: string) {
    exists s :: s in Subtrees(t) && s.name == n
  }

  predicate MentionsIn(cs: seq<Branch>, n: string) {
    exists s :: s in SubtreesOf(cs) && s.name == n
  }

  /** The position of the first node of `s` named `n`, or `|s|` when none is. */
  function FirstNamed(s: seq<Branch>, n: string): (k: nat)
    ensures k <= |s|
    ensures forall j :: 0 <= j < k ==> s[j].name != n
    ensures k < |s| ==> s[k].name == n
  {
    if s == [] then 0
    else if s[0].name == n then 0
    else 1 + FirstNamed(s[1..], n)
  }

  /** The first match in `a + b` is the first in `a`, or else the first in `b`. */
  lemma {:induction false} FirstNamedAppend(a: seq<Branch>, b: seq<Branch>, n: string)
    ensures FirstNamed(a + b, n) ==
      if FirstNamed(a, n) < |a| then FirstNamed(a, n) else |a| + FirstNamed(b, n)
  {
    if a != [] {
      assert (a + b)[0] == a[0];
      assert (a + b)[1..] == a[1..] + b;
      FirstNamedAppend(a[1..], b, n);
    } else {
      assert a + b == b;
    }
  }

  /** A node is found exactly when one is named `n`. */
  lemma FirstNamedFound(s: seq<Branch>, n: string)
    ensures FirstNamed(s, n) < |s| <==> exists x :: x in s && x.name == n
  {
    if FirstNamed(s, n) == |s| {
      forall x | x in s ensures x.name != n {
        var j :| 0 <= j < |s| && s[j] == x;
      }
    }
  }

  // ---------------------------------------------------------------------------
  // Searches

  /** `is_branch_mentioned_in_tree`: the node itself, then each child's subtree. */
  function IsBranchMentionedInTree(n: string, t: Branch): (r: bool)
    ensures r <==> Mentions(t, n)
    decreases t, 1
  {
    FirstNamedFound(Subtrees(t), n);
    if t.name == n then true else IsMentionedInChildren(n, t.branches)
  }

  function IsMentionedInChildren(n: string, cs: seq<Branch>): (r: bool)
    ensures r <==> MentionsIn(cs, n)
    decreases cs, 0
  {
    if cs == [] then false
    else
      var here := IsBranchMentionedInTree(n, cs[0]);
      var rest := IsMentionedInChildren(n, cs[1..]);
      assert SubtreesOf(cs) == Subtrees(cs[0]) + SubtreesOf(cs[1..]);
      here || rest
  }

  /** `get_branch_mut` (and `find_branch_by_name` of the sync planner, which walks
      the tree the same way): the first node in pre-order named `name`. */
  function GetBranch(t: Branch, name: string): (r: Option<Branch>)
    ensures var s := Subtrees(t); var k := FirstNamed(s, name);
      (r.None? <==> k == |s|) && (r.Some? ==> k < |s| && r.value == s[k])
    decreases t, 1
  {
    if t.name == name then Some(t)
    else
      FirstNamedAppend([t], SubtreesOf(t.branches), name);
      GetBranchIn(t.branches, name)
  }

  function GetBranchIn(cs: seq<Branch>, name: string): (r: Option<Branch>)
    ensures var s := SubtreesOf(cs); var k := FirstNamed(s, name);
      (r.None? <==> k == |s|) && (r.Some? ==> k < |s| && r.value == s[k])
    decreases cs, 0
  {
    if cs == [] then None
    else
      FirstNamedAppend(Subtrees(cs[0]), SubtreesOf(cs[1..]), name);
      match GetBranch(cs[0], name)
      case Some(b) => Some(b)
      case None => GetBranchIn(cs[1..], name)
  }

  /** What `get_branch_mut` finds is named as asked, and it finds something exactly
      when the name occurs in the tree. */
  lemma GetBranchFinds(t: Branch, name: string)
    ensures GetBranch(t, name).Some? <==> Mentions(t, name)
    ensures GetBranch(t, name).Some? ==>
      GetBranch(t, name).value.name == name && GetBranch(t, name).value in Subtrees(t)
  {
    FirstNamedFound(Subtrees(t), name);
  }

  /** `find_stack_with_branch`: the first stack that lists `current`. The source
      hands back a reference to that stack; here its position. */
  method FindStackWithBranch(stacks: seq<seq<string>>, current: string) returns (r: Result<nat, string>)
    ensures r.Ok? ==> r.value < |stacks| && current in stacks[r.value]
    ensures r.Ok? ==> forall j :: 0 <= j < r.value ==> current !in stacks[j]
    ensures r.Err? <==> forall j :: 0 <= j < |stacks| ==> current !in stacks[j]
    ensures r.Err? ==> r.error == "No stack found for branch " + current
  {
    var i := 0;
    while i < |stacks|
      invariant 0 <= i <= |stacks|
      invariant forall j :: 0 <= j < i ==> current !in stacks[j]
    {
      if current in stacks[i] {
        return Ok(i);
      }
      i := i + 1;
    }
    return Err("No stack found for branch " + current);
  }

  /** `is_branch_mentioned_already`: the repository has a tree and it names the branch. */
  function IsBranchMentionedAlready(trees: map<string, Branch>, repo: string, n: string): (r: bool)
    ensures r <==> repo in trees && Mentions(trees[repo], n)
    ensures repo !in trees ==> !r
  {
    if repo !in trees then false else IsBranchMentionedInTree(n, trees[repo])
  }

  /** `get_tree_branch_mut`: the first node named `n` in the repository's tree. */
  function GetTreeBranch(trees: map<string, Branch>, repo: string, n: string): (r: Option<Branch>)
    ensures r.Some? <==> repo in trees && Mentions(trees[repo], n)
    ensures r.Some? ==> r.value.name == n && r.value in Subtrees(trees[repo])
  {
    if repo !in trees then None
    else
      GetBranchFinds(trees[repo], n);
      GetBranch(trees[repo], n)
  }

  // ---------------------------------------------------------------------------
  // State::checkout

  /** How `checkout` can fail: a git command failed, `origin/HEAD` names no branch
      under `origin/`, the current branch is not in the tree, or the state file
      could not be written. */
  datatype CheckoutError =
    | GitFailed(message: string)
    | NoBranch
    | NotTracked(branch: string)
    | SaveFailed

  /** The outcome of one `checkout`: its result and the map of trees after it. */
  datatype CheckoutOutcome = CheckoutOutcome(result: Result<(), CheckoutError>, trees: map<string, Branch>)

  /** The result of the final `git checkout`. */
  function GitCheckout(gitOk: bool, branchName: string): Result<(), CheckoutError> {
    if gitOk then Ok(()) else Err(GitFailed("git checkout " + branchName + " failed"))
  }

  /** The effect `checkout` has, with the answers of git supplied: `remoteMain` is
      what `git_remote_main("origin")` returned, `saveOk` whether the state file
      was written and `gitOk` whether `git checkout <branch>` succeeded. */
  function CheckoutEffect(trees: map<string, Branch>, repo: string, current: string, branchName: string,
                          remoteMain: Result<string, string>, saveOk: bool, gitOk: bool): CheckoutOutcome
  {
    if IsBranchMentionedAlready(trees, repo, branchName) then
      CheckoutOutcome(GitCheckout(gitOk, branchName), trees)
    else if remoteMain.Err? then
      CheckoutOutcome(Err(GitFailed(remoteMain.error)), trees)
    else
      match AfterText(remoteMain.value, DefaultRemote + "/")
      case None => CheckoutOutcome(Err(NoBranch), trees)
      case Some(mainBranch) =>
        var trees1 := if current == mainBranch && repo !in trees then trees[repo := NewBranch(current)] else trees;
        if GetTreeBranch(trees1, repo, current).None? then
          CheckoutOutcome(Err(NotTracked(current)), trees1)
        else if !saveOk then CheckoutOutcome(Err(SaveFailed), trees1)
        else CheckoutOutcome(GitCheckout(gitOk, branchName), trees1)
  }

  /** The persisted state: one stack tree per repository directory. */
  class State {
    var trees: map<string, Branch>

    constructor(trees: map<string, Branch>)
      ensures this.trees == trees
    {
      this.trees := trees;
    }

    /** `State::checkout`. The upstream of the current branch is accepted and not
        used, as in the source. */
    method Checkout(repo: string, current: string, currentUpstream: Option<string>, branchName: string,
                    remoteMain: Result<string, string>, saveOk: bool, gitOk: bool)
      returns (r: Result<(), CheckoutError>)
      modifies this
      ensures var e := CheckoutEffect(old(trees), repo, current, branchName, remoteMain, saveOk, gitOk);
        r == e.result && trees == e.trees
    {
      if IsBranchMentionedAlready(trees, repo, branchName) {
        return GitCheckout(gitOk, branchName);
      }
      if remoteMain.Err? {
        return Err(GitFailed(remoteMain.error));
      }
      var mainBranch := AfterText(remoteMain.value, DefaultRemote + "/");
      if mainBranch.None? {
        return Err(NoBranch);
      }
      if current == mainBranch.value && repo !in trees {
        trees := trees[repo := NewBranch(current)];
      }
      var branch := GetTreeBranch(trees, repo, current);
      if branch.None? {
        return Err(NotTracked(current));
      }
      if repo !in trees {
        // Cannot happen: the branch was just found in this repository's tree.
        assert false;
      }
      if !saveOk {
        return Err(SaveFailed);
      }
      return GitCheckout(gitOk, branchName);
    }
  }

  /** A branch already in the repository's tree is only checked out: the trees are
      left as they are. */
  lemma CheckoutMentionedUnchanged(trees: map<string, Branch>, repo: string, current: string, branchName: string,
                                   remoteMain: Result<string, string>, saveOk: bool, gitOk: bool)
    requires repo in trees && Mentions(trees[repo], branchName)
    ensures var e := CheckoutEffect(trees, repo, current, branchName, remoteMain, saveOk, gitOk);
      e.trees == trees && (e.result.Ok? <==> gitOk)
  {
  }

  /** No existing tree is ever changed, and the only key that can appear is the
      repository's own, holding a single node for the current branch. */
  lemma CheckoutKeepsTrees(trees: map<string, Branch>, repo: string, current: string, branchName: string,
                           remoteMain: Result<string, string>, saveOk: bool, gitOk: bool)
    ensures var e := CheckoutEffect(trees, repo, current, branchName, remoteMain, saveOk, gitOk);
      && (forall k :: k in trees ==> k in e.trees && e.trees[k] == trees[k])
      && (forall k :: k in e.trees && k !in trees ==> k == repo && e.trees[k] == NewBranch(current))
  {
  }

  /** On the main branch of a repository with no tree yet, `checkout` starts the
      tree with a single node for the main branch. */
  lemma {:induction false} CheckoutStartsTree(trees: map<string, Branch>, repo: string, mainBranch: string,
                                              branchName: string, saveOk: bool, gitOk: bool)
    requires repo !in trees
    ensures var e := CheckoutEffect(trees, repo, mainBranch, branchName, Ok(DefaultRemote + "/" + mainBranch), saveOk, gitOk);
      && e.trees == trees[repo := NewBranch(mainBranch)]
      && (e.result.Ok? <==> saveOk && gitOk)
  {
    AfterTextRemotePrefix(mainBranch);
    var t := NewBranch(mainBranch);
    assert Subtrees(t)[0].name == mainBranch;
    GetBranchFinds(t, mainBranch);
  }

  /** `checkout` refuses to work off a branch the repository's tree does not name
      (unless it is the main branch of a repository with no tree yet). */
  lemma {:induction false} CheckoutUntrackedFails(trees: map<string, Branch>, repo: string, current: string,
                                                  branchName: string, mainBranch: string, saveOk: bool, gitOk: bool)
    requires !IsBranchMentionedAlready(trees, repo, branchName)
    requires current != mainBranch || repo in trees
    requires repo !in trees || !Mentions(trees[repo], current)
    ensures CheckoutEffect(trees, repo, current, branchName, Ok(DefaultRemote + "/" + mainBranch), saveOk, gitOk)
      == CheckoutOutcome(Err(NotTracked(current)), trees)
  {
    AfterTextRemotePrefix(mainBranch);
  }

  // ---------------------------------------------------------------------------
  // The branch `checkout` was asked to create

  /** `checkout` reports success for a branch it was asked to create and yet the
      new branch is in no tree: starting on `main` in an untracked repository,
      `feature` is checked out and the tree holds `main` alone. */
  lemma CheckoutDoesNotTrackNewBranch()
    ensures var e := CheckoutEffect(map[], "repo", "main", "feature", Ok("origin/main"), true, true);
      e.result.Ok? && "repo" in e.trees && !Mentions(e.trees["repo"], "feature")
  {
    CheckoutStartsTree(map[], "repo", "main", "feature", true, true);
    assert DefaultRemote + "/" + "main" == "origin/main";
    var t := NewBranch("main");
    assert Subtrees(t) == [t];
  }

  /** `t` with a new leaf `child` stacked on its first node named `parent`. */
  function AddChild(t: Branch, parent: string, child: string): (r: Branch)
    ensures r.name == t.name
    decreases t, 1
  {
    if t.name == parent then t.(branches := t.branches + [NewBranch(child)])
    else t.(branches := AddChildIn(t.branches, parent, child))
  }

  function AddChildIn(cs: seq<Branch>, parent: string, child: string): (r: seq<Branch>)
    ensures |r| == |cs|
    decreases cs, 0
  {
    if cs == [] then []
    else if IsBranchMentionedInTree(parent, cs[0]) then [AddChild(cs[0], parent, child)] + cs[1..]
    else [cs[0]] + AddChildIn(cs[1..], parent, child)
  }

  lemma {:induction false} SubtreesOfAppend(a: seq<Branch>, b: seq<Branch>)
    ensures SubtreesOf(a + b) == SubtreesOf(a) + SubtreesOf(b)
  {
    if a != [] {
      assert (a + b)[0] == a[0];
      assert (a + b)[1..] == a[1..] + b;
      SubtreesOfAppend(a[1..], b);
    } else {
      assert a + b == b;
    }
  }

  /** After `AddChild` the tree names what it named before and the new child,
      provided the parent was there, and nothing else. */
  lemma {:induction false} AddChildMentions(t: Branch, parent: string, child: string, n: string)
    requires Mentions(t, parent)
    ensures Mentions(AddChild(t, parent, child), n) <==> Mentions(t, n) || n == child
    decreases t, 1
  {
    var r := AddChild(t, parent, child);
    if t.name == parent {
      var leaf := NewBranch(child);
      SubtreesOfAppend(t.branches, [leaf]);
      assert SubtreesOf([leaf]) == Subtrees(leaf) + SubtreesOf([]);
      assert r.branches == t.branches + [leaf];
      assert Subtrees(r) == [r] + SubtreesOf(t.branches) + [leaf];
      if n == child { assert NewBranch(child) in Subtrees(r); }
    } else {
      assert MentionsIn(t.branches, parent) by {
        var s :| s in Subtrees(t) && s.name == parent;
      }
      AddChildInMentions(t.branches, parent, child, n);
      assert Subtrees(r) == [r] + SubtreesOf(r.branches);
      if Mentions(t, n) && n != child && !(t.name == n) {
        var s :| s in Subtrees(t) && s.name == n;
        assert s in SubtreesOf(t.branches);
      }
      if Mentions(r, n) && r.name != n {
        var s :| s in Subtrees(r) && s.name == n;
        assert s in SubtreesOf(r.branches);
      }
    }
  }

  lemma {:induction false} AddChildInMentions(cs: seq<Branch>, parent: string, child: string, n: string)
    requires MentionsIn(cs, parent)
    ensures MentionsIn(AddChildIn(cs, parent, child), n) <==> MentionsIn(cs, n) || n == child
    decreases cs, 0
  {
    var r := AddChildIn(cs, parent, child);
    assert SubtreesOf(cs) == Subtrees(cs[0]) + SubtreesOf(cs[1..]);
    assert SubtreesOf(r) == Subtrees(r[0]) + SubtreesOf(r[1..]);
    if IsBranchMentionedInTree(parent, cs[0]) {
      AddChildMentions(cs[0], parent, child, n);
      assert r[1..] == cs[1..];
    } else {
      assert MentionsIn(cs[1..], parent) by {
        var s :| s in SubtreesOf(cs) && s.name == parent;
      }
      AddChildInMentions(cs[1..], parent, child, n);
      assert r[0] == cs[0] && r[1..] == AddChildIn(cs[1..], parent, child);
    }
  }

  /** `AddChild` places the new leaf among the children of a node named `parent`. */
  lemma {:induction false} AddChildUnder(t: Branch, parent: string, child: string)
    requires Mentions(t, parent)
    ensures exists s :: s in Subtrees(AddChild(t, parent, child)) && s.name == parent && NewBranch(child) in s.branches
    decreases t, 1
  {
    var r := AddChild(t, parent, child);
    if t.name == parent {
      assert r.branches[|t.branches|] == NewBranch(child);
      assert r in Subtrees(r);
    } else {
      assert MentionsIn(t.branches, parent) by {
        var s :| s in Subtrees(t) && s.name == parent;
      }
      AddChildInUnder(t.branches, parent, child);
      var s :| s in SubtreesOf(r.branches) && s.name == parent && NewBranch(child) in s.branches;
      assert Subtrees(r) == [r] + SubtreesOf(r.branches);
      assert s in Subtrees(r);
    }
  }

  lemma {:induction false} AddChildInUnder(cs: seq<Branch>, parent: string, child: string)
    requires MentionsIn(cs, parent)
    ensures exists s :: s in SubtreesOf(AddChildIn(cs, parent, child)) && s.name == parent && NewBranch(child) in s.branches
    decreases cs, 0
  {
    var r := AddChildIn(cs, parent, child);
    assert SubtreesOf(cs) == Subtrees(cs[0]) + SubtreesOf(cs[1..]);
    assert SubtreesOf(r) == Subtrees(r[0]) + SubtreesOf(r[1..]);
    if IsBranchMentionedInTree(parent, cs[0]) {
      AddChildUnder(cs[0], parent, child);
      var s :| s in Subtrees(r[0]) && s.name == parent && NewBranch(child) in s.branches;
      assert s in SubtreesOf(r);
    } else {
      assert MentionsIn(cs[1..], parent) by {
        var s :| s in SubtreesOf(cs) && s.name == parent;
      }
      AddChildInUnder(cs[1..], parent, child);
      assert r[1..] == AddChildIn(cs[1..], parent, child);
      var s :| s in SubtreesOf(r[1..]) && s.name == parent && NewBranch(child) in s.branches;
      assert s in SubtreesOf(r);
    }
  }

  /** `checkout` as the command documents it: a branch not yet in the tree is
      created as a child of the current branch once the current branch has been
      found in the tree, before the state is saved and the branch checked out.
      The exits before that lookup leave the trees as they are. */
  function CheckoutTracked(trees: map<string, Branch>, repo: string, current: string, branchName: string,
                           remoteMain: Result<string, string>, saveOk: bool, gitOk: bool): CheckoutOutcome
  {
    var e := CheckoutEffect(trees, repo, current, branchName, remoteMain, saveOk, gitOk);
    if IsBranchMentionedAlready(trees, repo, branchName) || remoteMain.Err?
       || AfterText(remoteMain.value, DefaultRemote + "/").None?
       || !(repo in e.trees && Mentions(e.trees[repo], current)) then e
    else CheckoutOutcome(e.result, e.trees[repo := AddChild(e.trees[repo], current, branchName)])
  }

  /** The corrected `checkout`: a branch already in the tree is only checked out;
      when `origin/HEAD` cannot be read, or names no branch under `origin/`, it
      fails with the trees untouched; when the current branch is not tracked it
      fails as before; after a successful call for a new branch, that branch
      sits directly under a node of the current branch; and every branch the
      tree named before is still named. */
  lemma CheckoutTrackedTracks(trees: map<string, Branch>, repo: string, current: string, branchName: string,
                              remoteMain: Result<string, string>, saveOk: bool, gitOk: bool, n: string)
    ensures var e := CheckoutTracked(trees, repo, current, branchName, remoteMain, saveOk, gitOk);
      && (IsBranchMentionedAlready(trees, repo, branchName) ==>
            e.trees == trees && (e.result.Ok? <==> gitOk))
      && (!IsBranchMentionedAlready(trees, repo, branchName) && remoteMain.Err? ==>
            e == CheckoutOutcome(Err(GitFailed(remoteMain.error)), trees))
      && (!IsBranchMentionedAlready(trees, repo, branchName) && remoteMain.Ok?
          && AfterText(remoteMain.value, DefaultRemote + "/").None? ==>
            e == CheckoutOutcome(Err(NoBranch), trees))
      && (e.result == Err(NotTracked(current)) ==>
            e == CheckoutEffect(trees, repo, current, branchName, remoteMain, saveOk, gitOk))
      && (e.result.Ok? ==> repo in e.trees && Mentions(e.trees[repo], branchName))
      && (e.result.Ok? && !IsBranchMentionedAlready(trees, repo, branchName) ==>
            exists s :: s in Subtrees(e.trees[repo]) && s.name == current && NewBranch(branchName) in s.branches)
      && (repo in trees && Mentions(trees[repo], n) ==> repo in e.trees && Mentions(e.trees[repo], n))
  {
    var e0 := CheckoutEffect(trees, repo, current, branchName, remoteMain, saveOk, gitOk);
    CheckoutKeepsTrees(trees, repo, current, branchName, remoteMain, saveOk, gitOk);
    if repo in e0.trees && Mentions(e0.trees[repo], current) {
      AddChildMentions(e0.trees[repo], current, branchName, n);
      AddChildMentions(e0.trees[repo], current, branchName, branchName);
      AddChildUnder(e0.trees[repo], current, branchName);
    }
  }
}
