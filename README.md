# git-stack core in Dafny

git-stack keeps a tree of stacked git branches per repository: every branch is
mounted on a parent, and the trunk is the root. It syncs that tree with the
pull requests open on GitHub, and it draws the tree in the terminal and in an
interactive picker. This project models the in-memory logic between the git and
GitHub calls and the terminal, one Dafny module per source file:

- `Sync` (`src/sync.rs`) is the sync planner.
  - It builds the target state from the local tree and the open pull requests.
  - It computes the plan of local changes (checkout, mount, unmount, cached PR
    number) and remote changes (create or retarget a pull request).
  - It orders the mounts with Kahn's topological sort, parents before children.
- `StackState` (`src/state.rs`) is the branch tree as a rose tree.
  - Membership, lookup by name (also the shape of `find_branch_by_name` in
    `src/sync.rs`), and the stack lookup.
  - The effect of `checkout` on the map of trees, in a `State` class whose
    `trees` field the method updates.
- `TreeData` (`src/render/tree_data.rs`) flattens the tree into the lines the
  terminal draws. The lines come in pre-order with depth, index and the
  current-branch index, and siblings are ordered by the three-key comparator.
- `Github` (`src/github.rs`) covers:
  - the pull-request state predicates and the HTTP error classifier;
  - the author and fork filter of `list_prs` and the API base URL;
  - the remote-URL parser.
- `TuiApp` and `TuiInput` (`src/tui/app.rs`, `src/tui/input.rs`) are the
  picker's cursor state machine, as a class, and its key mapping.
- `Stats` (`src/stats.rs`) accumulates git command statistics. It holds
  `CommandStats` and `GitStats` classes whose methods update their fields.
- `Git` (`src/git.rs`) holds `after_text` and the `GitOutput` accessors.
- `Strings` holds the parts of Rust's `str` API these use: `find`,
  `split_once`/`splitn(2, _)`, `trim_end_matches`, `trim`, `lines().next()`
  and the order of `str`.
- `Wrappers` holds `Option` and `Result`.

Modelling choices:

- Git's and GitHub's answers are parameters:
  - `branch_exists` and `ref_exists` are sets;
  - the result of `git_remote_main` is a `Result`;
  - whether the state file was saved, and whether `git checkout` succeeded,
    are booleans;
  - the branches that exist locally, for the renderer, are a set.
- A `HashMap` is a Dafny `map`. Its iteration order is unspecified, so the
  loops that walk one pick the next key with `:|`, and the contracts about
  them do not depend on the order.
- The topological sort's queue order is modelled exactly: it is kept sorted,
  and the last element is popped.
- Durations are natural numbers of nanoseconds.

The stack state kept by the code is a tree of branch names per repository,
with cached PR numbers and notes; the sync planner reconciles that tree with
GitHub.

## Model

| member | source | states |
|---|---|---|
| `Git.GitOutput.IsEmpty` | src/git.rs:10-12 | true exactly when git printed no characters; `Output` and `OutputOr` branch on it |
| `Git.GitOutput.Output` | src/git.rs:13-19 | `None` exactly when stdout is empty, otherwise stdout unchanged |
| `Git.GitOutput.OutputOr` | src/git.rs:20-26 | an error carrying the given message exactly when stdout is empty, otherwise stdout unchanged |
| `Git.OutputAccessorsAgree` | src/git.rs:10-26 | `output_or` succeeds exactly when `output` is `Some`, and both then give the same text |
| `Git.AfterText` | src/git.rs:64-68 | `None` iff the needle occurs nowhere; otherwise `s` = prefix ++ needle ++ result, with no earlier occurrence inside the prefix |
| `Git.AfterTextEmptyNeedle` | src/git.rs:64-68 | with an empty needle the whole string comes back |
| `Git.AfterTextRemotePrefix` | src/state.rs:54-58 | after `origin/` in `origin/<name>` comes exactly `<name>`, which is how `checkout` reads the main branch |
| `Strings.Find` | src/git.rs:66 | the first position where the needle matches, `None` iff it matches nowhere |
| `Strings.SplitOnce` | src/github.rs:468 | a split exists iff the separator occurs; it is at the first occurrence, and the parts rejoin to the input |
| `Strings.SplitOnceJoin` | src/github.rs:472 | splitting `a ++ [c] ++ b` where `a` has no `c` gives back `(a, b)` |
| `Strings.TrimEndMatches` | src/github.rs:471 | the result is a prefix of the input and no longer ends with the suffix |
| `Strings.TrimEndMatchesAppend` | src/github.rs:496 | appending the suffix once more does not change what `trim_end_matches` leaves |
| `Strings.TrimStart` | src/github.rs:464 | only leading whitespace is removed, and the result starts with a non-whitespace character |
| `Strings.TrimEnd` | src/github.rs:464 | only trailing whitespace is removed, and the result ends with a non-whitespace character |
| `Strings.TrimPadded` | src/github.rs:464 | `trim` gives the same text whatever whitespace surrounds the input |
| `Strings.FirstLine` | src/render/tree_data.rs:236-240 | `None` iff the text is empty; otherwise the whole first line: a prefix with no line feed, followed by the end of the text, a line feed, or a carriage return and line feed that is dropped |
| `Strings.LessTotal` | src/render/tree_data.rs:312-313 | the order of `str` is total on distinct strings |
| `Strings.LessTransitive` | src/render/tree_data.rs:312-313 | the order of `str` is transitive |
| `Github.FullName` | src/github.rs:41-43 | `owner/repo`; splitting it at the first `/` gives back owner and repo when the owner has no `/` |
| `Github.IsFromFork` | src/github.rs:128-137 | true when the head repo is unknown, false when only the base repo is unknown, otherwise true iff the full names differ |
| `Github.DisplayState` | src/github.rs:119-150 | Merged iff `merged` or `merged_at` is set; otherwise Closed for a closed PR, Draft for an open draft, and Open for the rest |
| `Github.ClassifyError` | src/github.rs:427-450 | Unauthorized iff the message has `401`; otherwise an API error with the first of `403`, `422`, `404` it contains; otherwise a network error; the message is kept |
| `Github.ApiBase` | src/github.rs:232-236 | `https://api.github.com` for `github.com`, and `https://<host>/api/v3` for any other host |
| `Github.PrMap` | src/github.rs:357-389 | every kept PR is keyed by its head branch, every key maps to a kept PR with that head, and the last kept PR for a head wins |
| `Github.PrMapKeys` | src/github.rs:360-388 | with sync authors set, a head is a key iff some PR on it is by a listed author, forks or not; otherwise iff some PR on it is not from a fork |
| `Github.SplitHostPath` | src/github.rs:467-480 | a parsed owner has no `/`, the host has no separator, and `owner/repo` no longer ends in `.git` |
| `Github.SplitHostPathReadsBack` | src/github.rs:467-480 | a successful parse reads back: the input starts with host, separator, owner, `/`, repo |
| `Github.SplitHostPathJoin` | src/github.rs:470-472 | the path is split at its first `/` only, and a trailing `.git` is dropped |
| `Github.ParsePaddedUrl` | src/github.rs:464 | whitespace on either side of a URL leaves its parse, result or error, unchanged |
| `Github.ParseRemoteUrl` | src/github.rs:456-512 | parses the trimmed URL; an error names it; a URL that is neither `git@` nor a known scheme is an error; a result reads back from the URL |
| `Github.ParseTrimmedReadsBack` | src/github.rs:467-506 | the URL starts with its scheme or `git@`, then host, separator, owner, `/`, repo |
| `Github.ParseSshRoundTrip` | src/github.rs:686-715 | `git@host:owner/repo`, with or without `.git`, parses to that host, owner and repo, enterprise hosts included |
| `Github.ParseUrlRoundTrip` | src/github.rs:693-707 | `https://`, `ssh://git@`, `ssh://` and `git://` URLs of `host/owner/repo`, with or without `.git`, parse to that host, owner and repo |
| `StackState.NewBranch` | src/state.rs:25-32 | a node with the given name and no children |
| `StackState.IsBranchMentionedInTree` | src/state.rs:113-124 | true iff some node of the tree has the name |
| `StackState.GetBranch` | src/state.rs:99-111 | the first node in pre-order with the name; `None` iff there is none |
| `StackState.GetBranchFinds` | src/sync.rs:949-960 | the search finds a node iff the name is in the tree, and the node it finds has that name |
| `StackState.FindStackWithBranch` | src/state.rs:125-138 | the first stack containing the branch; an error naming the branch iff none does |
| `StackState.IsBranchMentionedAlready` | src/state.rs:82-87 | true iff the repository has a tree and the branch is in it; false without a tree |
| `StackState.GetTreeBranch` | src/state.rs:88-96 | a node with the name, from the repository's tree, iff the tree has one |
| `StackState.State.constructor` | src/state.rs:35-39 | a state holding the given trees |
| `StackState.State.Checkout` | src/state.rs:42-80 | the result and the new trees are those of `CheckoutEffect` (the same steps, with git's answers supplied) |
| `StackState.CheckoutMentionedUnchanged` | src/state.rs:50-53 | a branch already in the tree is only checked out, and the trees are unchanged |
| `StackState.CheckoutKeepsTrees` | src/state.rs:59-71 | no existing tree is modified; the only possible new entry is the repository's, a single node named after the current branch |
| `StackState.CheckoutStartsTree` | src/state.rs:59-64 | on the main branch with no tree yet, a one-node tree rooted at it is inserted |
| `StackState.CheckoutUntrackedFails` | src/state.rs:65-67 | when the current branch is not in the tree, checkout fails with "not tracked" and changes nothing |
| `StackState.CheckoutDoesNotTrackNewBranch` | src/state.rs:65-77 | a successful checkout of a new branch leaves it out of the tree |
| `StackState.AddChildMentions` | src/main.rs:59-60 | adding a child under a node in the tree adds that one name and loses none |
| `StackState.AddChildUnder` | src/main.rs:59-60 | the added leaf is a child of a node named after the parent branch |
| `StackState.CheckoutTrackedTracks` | src/main.rs:59-60 | the corrected checkout: an already-tracked branch is only checked out with the trees unchanged; a failed `origin/HEAD` read or a missing main branch fails with the trees unchanged; an untracked current branch fails as in the code as written; after a successful checkout of a new branch it sits directly under a node of the current branch; no name the tree held is lost |
| `TreeData.IsCleanIffZero` | src/render/tree_data.rs:48-52 | clean iff staged, unstaged and untracked are all zero |
| `TreeData.CachedPr` | src/render/tree_data.rs:180-182 | the cached PR for a branch exists iff PRs were fetched and one is cached under its name |
| `TreeData.SubtreeContains` | src/render/tree_data.rs:104-126 | first component iff a node of the subtree is the target branch; second iff a node has a cached PR by a display author; never with no PR cache |
| `TreeData.SubtreeCacheKeys` | src/render/tree_data.rs:280-289 | every child is keyed by its name, and each key holds `subtree_contains` of a child with that name |
| `TreeData.BeforeAsymmetric` | src/render/tree_data.rs:290-314 | the comparator is a strict order |
| `TreeData.BeforeTotal` | src/render/tree_data.rs:290-314 | two children neither of which comes first have the same name |
| `TreeData.NotBeforeTransitive` | src/render/tree_data.rs:290-314 | "not before" is transitive |
| `TreeData.InsertSorted` | src/render/tree_data.rs:290-314 | inserting into a sorted list keeps it sorted |
| `TreeData.SortByPermutes` | src/render/tree_data.rs:290 | the sort permutes the children |
| `TreeData.SortBySorted` | src/render/tree_data.rs:290-314 | the sort leaves the children in comparator order |
| `TreeData.SortByStable` | src/render/tree_data.rs:290-314 | the sort is stable: children that tie (they share a name) keep their relative order |
| `TreeData.SortChildren` | src/render/tree_data.rs:277-314 | as many children as before, each one of the originals |
| `TreeData.SortChildrenOrder` | src/render/tree_data.rs:277-314 | a permutation of the children, ordered current subtree first, then display-author subtree, then by name; a uniquely named child's key is its own `subtree_contains` |
| `TreeData.IsDimmed` | src/render/tree_data.rs:180-187 | never dimmed without display authors; otherwise dimmed iff a cached PR's author is not listed |
| `TreeData.PrInfo` | src/render/tree_data.rs:227-233 | present iff a PR is cached, with its number, author, and display state: merged iff merged, else closed iff closed, else draft iff a draft, else open |
| `TreeData.NotePreview` | src/render/tree_data.rs:236-240 | absent without a note or for an empty note, otherwise the note's whole first line, ended as `lines()` ends it |
| `TreeData.Entry` | src/render/tree_data.rs:172-274 | a line with the node's name, depth and index; current iff the name is the current branch; remote-only iff not a local branch; dimmed, PR line and note preview as `IsDimmed`, `PrInfo` and `NotePreview` give them |
| `TreeData.Ordered` | src/render/tree_data.rs:277-330 | the tree with children in drawing order keeps each node's name, note and number of children |
| `TreeData.OrderedCount` | src/render/tree_data.rs:277-314 | reordering children keeps how often each name occurs |
| `TreeData.Flatten` | src/render/tree_data.rs:172-274 | the first line is the node's own |
| `TreeData.FlattenShape` | src/render/tree_data.rs:172-330 | each line's index is its position; the node sits at its depth and every line after it one level deeper or more |
| `TreeData.FlattenCount` | src/render/tree_data.rs:261-330 | one line per node: each name occurs as often in the lines as in the tree |
| `TreeData.LastCurrentFinds` | src/render/tree_data.rs:173-177 | the recorded current index is `None` iff no line is current, otherwise the last current line |
| `TreeData.FlattenCurrentFlag` | src/render/tree_data.rs:173 | a line is marked current iff its name is the current branch |
| `TreeData.FlattenTree` | src/render/tree_data.rs:160-331 | appends the pre-order lines of the ordered subtree and updates the current index by them |
| `TreeData.FlattenChildrenInto` | src/render/tree_data.rs:317-330 | appends the children's lines one subtree after another in drawing order |
| `TreeData.ComputeRenderableTree` | src/render/tree_data.rs:129-157 | one line per node, indices equal positions, the root first at depth 0; the current index is `None` iff no node is current, else the last current line |
| `TreeData.FlattenRoot` | src/render/tree_data.rs:138-150 | the flattening from the root has the properties above |
| `Sync.FromPullRequest` | src/sync.rs:73-91 | copies number, base, title and URL; the state is Merged, Closed, Draft or Open with the precedence of `display_state` |
| `Sync.FromPullRequestMirrorsDisplay` | src/sync.rs:78-86 | the state equals `display_state` |
| `Sync.TargetOfLocal` | src/sync.rs:326-360 | a local branch keeps its existence flags, and its expected PR base is its parent |
| `Sync.TargetOfPr` | src/sync.rs:364-383 | a PR head outside the tree gets the PR base as parent and expected base, the PR number, and the answers of git |
| `Sync.BuildTargetState` | src/sync.rs:317-389 | the target state of `Target` |
| `Sync.TargetExpectsOwnBase` | src/sync.rs:331-345 | a local branch whose open PR is based on its local parent keeps that base as its expected PR base |
| `Sync.LocalTargets` | src/sync.rs:324-361 | one entry per local branch, each that branch's target |
| `Sync.LocalTarget` | src/sync.rs:325-360 | the target entry of one local branch |
| `Sync.AddPrTargets` | src/sync.rs:364-383 | adds exactly the PR heads not already present, each with its PR's target, and keeps the local entries |
| `Sync.TargetKeys` | src/sync.rs:317-389 | the target's branches are the local branches and the PR heads, with the same trunk |
| `Sync.TargetPrNumber` | src/sync.rs:326 | the open PR's number if there is one, else the locally cached number |
| `Sync.TargetParent` | src/sync.rs:331-349 | the local parent changes iff there is an open PR whose base is trunk, local or another PR head and differs from it, and it then becomes that base |
| `Sync.TargetPullsPr` | src/sync.rs:364-383 | a PR head outside the tree has the PR base as parent, the PR's number, and git's existence answers |
| `Sync.ParentMap` | src/sync.rs:617-620 | keyed by exactly the branch names |
| `Sync.ParentMapUnique` | src/sync.rs:617-620 | with distinct names, each branch maps to its own parent |
| `Sync.InsertSorted` | src/sync.rs:659-662 | pushing and re-sorting keeps the queue sorted and adds exactly one name |
| `Sync.InDegrees` | src/sync.rs:627-633 | each branch's in-degree is the number of its pairs whose parent is being mounted |
| `Sync.ReadyQueue` | src/sync.rs:636-643 | the sorted queue of exactly the branches of in-degree 0 |
| `Sync.Release` | src/sync.rs:653-664 | each in-degree drops by the pairs linking it to the popped branch, with no underflow, and exactly those reaching 0 join the sorted queue |
| `Sync.TopologicalSortBranches` | src/sync.rs:611-668 | empty for empty input; the names come out in Kahn order; every emitted pair is a branch with its parent from the input |
| `Sync.PopNext` | src/sync.rs:647-665 | one step of the loop keeps the Kahn invariant, and the set of names not yet emitted shrinks |
| `Sync.KahnParentsFirst` | src/sync.rs:647-665 | a branch whose parent is also being mounted is emitted after that parent |
| `Sync.TopoParentFirst` | src/sync.rs:647-665 | in the sorted pairs, a pair whose parent is also a sorted branch comes after that parent's pair |
| `Sync.KahnDistinct` | src/sync.rs:647-665 | no name is emitted twice |
| `Sync.KahnComplete` | src/sync.rs:627-665 | when the parent links are acyclic (ranked), every branch is emitted |
| `Sync.TopoPermutation` | src/sync.rs:617-665 | with distinct names and acyclic links, the result is a permutation of the input |
| `Sync.TopoSameElements` | src/sync.rs:617-665 | with distinct names and acyclic links, the result holds exactly the input pairs |
| `Sync.KahnCycle` | src/sync.rs:627-665 | branches on a parent cycle are never emitted |
| `Sync.RepointTo` | src/sync.rs:500-503 | the branch's parent, else the trunk |
| `Sync.CollectPullChanges` | src/sync.rs:411-447 | exactly the wanted mounts, distinct by name; exactly the wanted checkouts; exactly the stale PR numbers, with no branch twice |
| `Sync.EmitMounts` | src/sync.rs:453-464 | every sorted pair is mounted, a checkout precedes its branch's mount, mounts keep parents first, and nothing else is emitted; no change twice when no branch is sorted twice |
| `Sync.EmittedOrdered` | src/sync.rs:453-464 | mounts are emitted parents first |
| `Sync.EmitPrUpdates` | src/sync.rs:467-469 | one `UpdatePrNumber` per stale number, in order; no change twice when no branch is listed twice |
| `Sync.PullDirection` | src/sync.rs:405-470 | the pull-direction local changes are justified, complete up to cycles, checkout-then-mount, parents first, with no change twice |
| `Sync.MountsWaitOnCycles` | src/sync.rs:450-464 | a wanted mount left out waits on another wanted, unmounted branch |
| `Sync.MountsComplete` | src/sync.rs:411-464 | with acyclic target parents, every wanted mount is emitted |
| `Sync.CollectUnmounts` | src/sync.rs:482-508 | exactly the non-trunk local branches with no open PR and a merged closed PR, each with its parent or the trunk, with no branch twice |
| `Sync.ChildRetargets` | src/sync.rs:520-534 | exactly the children whose open PR is based on the unmounted branch, retargeted to its parent or the trunk, with no branch twice |
| `Sync.EmitUnmounts` | src/sync.rs:511-537 | one unmount per merged branch, in order, and the child retargets for each; with no merged branch listed twice, no unmount twice and no child retargeted twice |
| `Sync.PullThenUnmount` | src/sync.rs:511-537 | unmounts after the pull changes keep the layout, keep the mounted set, and unmount every merged branch |
| `Sync.PushChanges` | src/sync.rs:546-600 | only pushed, unmerged, local non-trunk branches; a retarget for each open PR on the wrong base; a new PR for each branch without any PR; at most one change per branch |
| `Sync.ComputeSyncPlan` | src/sync.rs:394-607 | push-only means no local changes; pull-only means no push changes; every change is justified and never about trunk; checkout precedes mount; merged branches are unmounted with children retargeted; both flags give an empty plan; no local change twice, and at most one remote change per branch whenever the target keeps each PR that sits on its local parent on that base (as the built target does) |
| `Stats.MaxOfBounds` | src/stats.rs:17-19 | the maximum is at least every duration, and is one of them (0 for none) |
| `Stats.Average` | src/stats.rs:22-28 | 0 for no commands, otherwise the floor of total over count |
| `Stats.AverageAtMostMax` | src/stats.rs:14-28 | the average duration never exceeds the maximum |
| `Stats.AvgDurationAsWritten` | src/stats.rs:22-28 | with the count cast to 32 bits, a panic iff the count is a nonzero multiple of 2^32, and the right average below 2^32 |
| `Stats.AvgDurationPanicsAtTwoToThe32` | src/stats.rs:26 | a count of 2^32 divides by zero |
| `Stats.AvgDurationWrongAfterTwoToThe32` | src/stats.rs:26 | a count of 2^32 + 1 gives the total instead of the average |
| `Stats.CommandStats.constructor` | src/stats.rs:6-11 | zero count, total and maximum |
| `Stats.CommandStats.Record` | src/stats.rs:14-20 | count up by one, total up by the duration, maximum the larger of the old one and the duration |
| `Stats.CommandStats.AvgDuration` | src/stats.rs:22-28 | zero without commands, otherwise the floor of total over count |
| `Stats.CountSumIncrement` | src/stats.rs:41-47 | bumping one entry raises the sum of the counts by one |
| `Stats.RecordOneMore` | src/stats.rs:41-47 | recording one duration under a command raises the sum of the per-command counts by one |
| `Stats.GitStats.constructor` | src/stats.rs:31-38 | no commands and an empty total |
| `Stats.GitStats.Record` | src/stats.rs:41-47 | the total records the duration; only the command's entry changes, created if absent; the total count stays the sum of the per-command counts |
| `Stats.GitStats.UpdateEntry` | src/stats.rs:43-46 | an existing entry records the duration, and nothing else changes |
| `Stats.GitStats.InsertEntry` | src/stats.rs:43-46 | a new entry holding only this duration is added, and nothing else changes |
| `Stats.CommandKey` | src/stats.rs:57 | the first argument, or `unknown` with none |
| `Stats.RecordGitCommand` | src/stats.rs:56-61 | records under the command key, as `GitStats.Record` does |
| `TuiInput.HandleKey` | src/tui/input.rs:28-47 | Quit iff Ctrl+C, `q` or Esc; MoveUp iff Up or `k`; MoveDown iff Down or `j`; Select iff Enter; None otherwise |
| `TuiInput.HandleEvent` | src/tui/input.rs:21-26 | a key event maps as `handle_key` does, and every other event to None |
| `TuiInput.ModifiersOnlyMatterForCtrlC` | src/tui/input.rs:28-47 | held modifiers change the action of no key but `c` |
| `TuiInput.CtrlCQuitsPlainCDoesNothing` | src/tui/input.rs:30-32 | `c` quits with Control held and does nothing without |
| `TuiApp.Initial` | src/tui/app.rs:48-62 | the cursor on the current branch's line, else on line 0; not quitting; no branch chosen |
| `TuiApp.AfterMoveUp` | src/tui/app.rs:65-70 | one line up when above line 0, otherwise nothing changes |
| `TuiApp.AfterMoveDown` | src/tui/app.rs:73-78 | one line down while before the last line, otherwise nothing changes |
| `TuiApp.AfterSelect` | src/tui/app.rs:81-86 | on a line: that line's branch is chosen and the picker quits; off every line nothing changes |
| `TuiApp.AfterQuit` | src/tui/app.rs:89-91 | only the quit flag is set |
| `TuiApp.Apply` | src/tui/app.rs:94-102 | each action runs exactly its own operation, and None changes nothing |
| `TuiApp.ApplyKeepsInside` | src/tui/app.rs:65-102 | no action moves a cursor on the tree off it |
| `TuiApp.RunKeepsInside` | src/tui/app.rs:65-102 | no run of actions moves a cursor on the tree off it |
| `TuiApp.RunKeepsQuit` | src/tui/app.rs:81-102 | once quitting, the picker stays quitting, and a chosen branch stays chosen |
| `TuiApp.MoveDownRepeated` | src/tui/app.rs:73-78 | k presses of Down from line c land on line min(c + k, last) |
| `TuiApp.MoveUpRepeated` | src/tui/app.rs:65-70 | k presses of Up from line c land on line max(c - k, 0) |
| `TuiApp.MoveDownThenUp` | src/tui/app.rs:65-78 | Down then Up returns to the same state unless Down stopped at the last line |
| `TuiApp.MoveUpThenDown` | src/tui/app.rs:65-78 | Up then Down returns to the same state unless Up stopped at line 0 |
| `TuiApp.QuitKeysQuit` | src/tui/app.rs:89-102 | Ctrl+C, `q` and Esc quit from any state without choosing a branch |
| `TuiApp.EnterChoosesCursorLine` | src/tui/app.rs:81-86 | Enter on a line quits with that line's branch chosen |
| `TuiApp.App.constructor` | src/tui/app.rs:48-62 | the picker state is `Initial` of the tree |
| `TuiApp.App.MoveUp` | src/tui/app.rs:65-70 | the new state is `AfterMoveUp` of the old one |
| `TuiApp.App.MoveDown` | src/tui/app.rs:73-78 | the new state is `AfterMoveDown` of the old one |
| `TuiApp.App.Select` | src/tui/app.rs:81-86 | the new state is `AfterSelect` of the old one |
| `TuiApp.App.Quit` | src/tui/app.rs:89-91 | the new state is `AfterQuit` of the old one |
| `TuiApp.App.HandleAction` | src/tui/app.rs:94-102 | the new state is `Apply` of the old one and the action |

## Left out

- Process and network I/O:
  - `run_git`, `run_git_ok`, `git_fetch`, `run_git_status_clean`, `git_checkout_main`;
  - the GitHub client's HTTP calls (`get_pr`, `find_pr_for_branch`, `create_pr`,
    `update_pr`, and `list_prs` paging);
  - token discovery and storage, and opening the browser.
  Their results enter the model as parameters or sets.
- In `src/sync.rs`, `sync`, `read_local_state`, `collect_local_branches`,
  `read_remote_state`, `apply_plan`, `apply_local_change`,
  `apply_remote_change` and `print_plan`. They only perform git, GitHub and
  terminal side effects.
- `validate_plan`, because it does nothing.
- `find_branch_by_name_mut`. It is the same search as `find_branch_by_name`,
  and on values the two do not differ.
- `load_state`, `save_state` and `get_xdg_path`, because they are YAML and
  filesystem work. A failed save is a boolean parameter of `checkout`.
- The text of the error when the final `git checkout` fails: the model names
  the branch, while `run_git` reports the arguments and the exit status
  (src/git.rs:43), which the model does not have.
- The upstream argument of `checkout`, which the source accepts and does not use.
- In the render tree, the git-backed fields: branch status, diff statistics,
  the working-tree status of the current branch, and the verbose details
  (`lkg_parent`, `stack_method`). `LocalStatus::is_clean` is modelled on its own.
- The picker's drawing, terminal set-up and event loop.
  - `ListState` is reduced to the selected line.
  - The `verbose` flag is kept but has no effect, as in the source.
- The unused `trunk` parameter of `topological_sort_branches`.
- The thread-local statistics, `get_stats`, `reset_stats`, `print_summary` and
  `print_json`. `record_git_command` is modelled on an explicit `GitStats`.
- Stats.CommandStats.Record: does not model 64-bit overflow of `count` or of the total duration, because counts and durations are unbounded naturals.
- Stats.CommandStats.AvgDuration: is the intended division, with no 32-bit cast (see Findings). It works in whole nanoseconds and ignores how `Duration / u32` splits seconds and nanoseconds, which can round to one nanosecond below the exact floor.
- Sync.ComputeSyncPlan: does not state the order of the change lists beyond parents-before-children and a checkout right before its mount, because the source's hash-map iteration order is unspecified.

## Findings

| source | as written | input that shows it | evidently intended | confidence | as-written member | corrected member |
|---|---|---|---|---|---|---|
| src/stats.rs:26 | `total_duration / self.count as u32` truncates the 64-bit count to 32 bits | a count of 2^32 divides by zero and panics; a count of 2^32 + 1 divides by 1 | divide by the full count | not executed | `Stats.AvgDurationAsWritten` (`Stats.AvgDurationPanicsAtTwoToThe32`, `Stats.AvgDurationWrongAfterTwoToThe32`) | `Stats.CommandStats.AvgDuration` |
| src/state.rs:65-77 | `checkout` of a branch not yet in the tree looks up the current branch, saves, and checks out, but never adds the new branch to the tree | empty trees, repo `repo`, current `main` = main branch, new branch `feature`: the call succeeds and `feature` is in no tree | the command description (src/main.rs:59-60) says the new branch becomes a descendant of the current branch | not executed | `StackState.CheckoutDoesNotTrackNewBranch` | `StackState.CheckoutTrackedTracks` |
