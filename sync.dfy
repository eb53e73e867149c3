/** `src/sync.rs`: the staged reconciliation of the local stack tree with the open
    and closed pull requests on GitHub. The stages modelled here are the pure and
    in-memory ones: turning a pull request into the planner's view of it, merging
    the two sides into a target state, diffing that target against the current
    state into a plan, and ordering the branches to mount parents first. */
module Sync {
  import opened Wrappers
  import opened Strings
  import opened Git
  import Github

  // ---------------------------------------------------------------------------
  // The planner's view of the two sides

  /** One branch of the local stack tree. */
  datatype LocalBranch = LocalBranch(parent: Option<string>, prNumber: Option<nat>, existsLocally: bool,
                                     pushedToRemote: bool)

  datatype LocalState = LocalState(branches: map<string, LocalBranch>, trunk: string)

  datatype RemotePrState = Draft | Open | Merged | Closed

  datatype RemotePr = RemotePr(number: nat, base: string, state: RemotePrState, title: string, htmlUrl: string)

  /** Open and closed pull requests, each keyed by its head branch. */
  datatype RemoteState = RemoteState(prs: map<string, RemotePr>, closedPrs: map<string, RemotePr>)

  /** What a branch should look like once both sides agree. */
  datatype TargetBranch = TargetBranch(parent: Option<string>, prNumber: Option<nat>, expectedPrBase: Option<string>,
                                       existsLocally: bool, pushedToRemote: bool)

  datatype TargetState = TargetState(branches: map<string, TargetBranch>, trunk: string)

  datatype LocalChange =
    | MountBranch(name: string, parent: string)
    | UnmountBranch(name: string, repointChildrenTo: string)
    | UpdatePrNumber(branch: string, prNumber: nat)
    | CheckoutBranch(name: string)

  datatype RemoteChange =
    | CreatePr(branch: string, base: string, title: string)
    | RetargetPr(number: nat, branch: string, oldBase: string, newBase: string)

  datatype SyncPlan = SyncPlan(localChanges: seq<LocalChange>, remoteChanges: seq<RemoteChange>, warnings: seq<string>)
  {
    /** Nothing to apply on either side (warnings do not count). */
    predicate IsEmpty() {
      localChanges == [] && remoteChanges == []
    }
  }

  datatype SyncOptions = SyncOptions(pushOnly: bool, pullOnly: bool, dryRun: bool)

  /** `RemotePr::from`: the fields the planner needs, with the state classified as
      merged before closed before draft before open. */
  function FromPullRequest(pr: Github.PullRequest): (r: RemotePr)
    ensures r.number == pr.number && r.base == pr.base.refName && r.title == pr.title && r.htmlUrl == pr.htmlUrl
    ensures r.state == Merged <==> Github.IsMerged(pr)
    ensures r.state == Closed <==> !Github.IsMerged(pr) && pr.state.Closed?
    ensures r.state == Draft <==> !Github.IsMerged(pr) && pr.state.Open? && pr.draft
  {
    var state :=
      if Github.IsMerged(pr) then Merged
      else if pr.state == Github.PrState.Closed then Closed
      else if pr.draft then Draft
      else Open;
    RemotePr(pr.number, pr.base.refName, state, pr.title, pr.htmlUrl)
  }

  /** The display state of a pull request, in the planner's terms. */
  function AsRemoteState(d: Github.PrDisplayState): RemotePrState {
    match d
    case Draft => Draft
    case Open => Open
    case Merged => Merged
    case Closed => Closed
  }

  /** The planner classifies a pull request exactly as `display_state` does. */
  lemma FromPullRequestMirrorsDisplay(pr: Github.PullRequest)
    ensures FromPullRequest(pr).state == AsRemoteState(Github.DisplayState(pr))
  {
  }

  // ---------------------------------------------------------------------------
  // build_target_state

  /** The remote-tracking ref whose existence tells that `name` was pushed. */
  function RemoteRef(name: string): string {
    DefaultRemote + "/" + name
  }

  /** A pull request's base can serve as parent when it is the trunk, a branch of
      the local tree, or the head of another open pull request. */
  predicate BaseAvailable(local: LocalState, remote: RemoteState, base: string) {
    base == local.trunk || base in local.branches || base in remote.prs
  }

  /** The target of a branch of the local tree. */
  function TargetOfLocal(local: LocalState, remote: RemoteState, name: string): (t: TargetBranch)
    requires name in local.branches
    ensures t.expectedPrBase == t.parent
    ensures t.existsLocally == local.branches[name].existsLocally
    ensures t.pushedToRemote == local.branches[name].pushedToRemote
  {
    var lb := local.branches[name];
    var prNumber := if name in remote.prs then Some(remote.prs[name].number) else lb.prNumber;
    var parent :=
      if name in remote.prs && BaseAvailable(local, remote, remote.prs[name].base)
         && lb.parent != Some(remote.prs[name].base)
      then Some(remote.prs[name].base)
      else lb.parent;
    TargetBranch(parent, prNumber, parent, lb.existsLocally, lb.pushedToRemote)
  }

  /** The target of the head branch of an open pull request that is not in the
      local tree: it is pulled in under the pull request's base. */
  function TargetOfPr(name: string, pr: RemotePr, branchExists: set<string>, remoteRefs: set<string>)
    : (t: TargetBranch)
    ensures t.parent == Some(pr.base) && t.expectedPrBase == Some(pr.base) && t.prNumber == Some(pr.number)
    ensures t.existsLocally <==> name in branchExists
    ensures t.pushedToRemote <==> RemoteRef(name) in remoteRefs
  {
    TargetBranch(Some(pr.base), Some(pr.number), Some(pr.base), name in branchExists, RemoteRef(name) in remoteRefs)
  }

  /** The target state: every local branch, and every open pull request's head
      that is not a local branch. `branchExists` and `remoteRefs` stand for the
      local branches and remote-tracking refs git reports. */
  function Target(local: LocalState, remote: RemoteState, branchExists: set<string>, remoteRefs: set<string>)
    : TargetState
  {
    TargetState(
      map n | n in local.branches.Keys + remote.prs.Keys ::
        if n in local.branches then TargetOfLocal(local, remote, n)
        else TargetOfPr(n, remote.prs[n], branchExists, remoteRefs),
      local.trunk)
  }

  /** A local branch whose open pull request is based on its local parent is
      expected to stay on that base. */
  predicate ExpectsOwnBase(local: LocalState, remote: RemoteState, target: TargetState) {
    forall n ::
      (n in local.branches && n in target.branches && n in remote.prs
       && local.branches[n].parent == Some(remote.prs[n].base)) ==>
      target.branches[n].expectedPrBase == Some(remote.prs[n].base)
  }

  /** The target `build_target_state` builds moves no branch off a pull-request
      base that agrees with the local parent. */
  lemma TargetExpectsOwnBase(local: LocalState, remote: RemoteState, branchExists: set<string>, remoteRefs: set<string>)
    ensures ExpectsOwnBase(local, remote, Target(local, remote, branchExists, remoteRefs))
  {
  }

  /** `build_target_state`: one pass over the local branches, then one over the
      open pull requests, in whatever order the maps yield their keys. */
  method BuildTargetState(local: LocalState, remote: RemoteState, branchExists: set<string>, remoteRefs: set<string>)
    returns (target: TargetState)
    ensures target == Target(local, remote, branchExists, remoteRefs)
  {
    var branches := LocalTargets(local, remote);
    branches := AddPrTargets(local, remote, branchExists, remoteRefs, branches);
    assert branches == Target(local, remote, branchExists, remoteRefs).branches;
    target := TargetState(branches, local.trunk);
  }

  /** The first pass of `build_target_state`: the target of every local branch. */
  method LocalTargets(local: LocalState, remote: RemoteState) returns (branches: map<string, TargetBranch>)
    ensures branches.Keys == local.branches.Keys
    ensures forall n :: n in branches ==> branches[n] == TargetOfLocal(local, remote, n)
  {
    branches := map[];
    var todo := local.branches.Keys;
    while todo != {}
      invariant todo <= local.branches.Keys
      invariant branches.Keys == local.branches.Keys - todo
      invariant forall n :: n in branches ==> branches[n] == TargetOfLocal(local, remote, n)
      decreases todo
    {
      var name :| name in todo;
      var t := LocalTarget(local, remote, name);
      branches := branches[name := t];
      todo := todo - {name};
    }
  }

  /** One step of the first pass. */
  method LocalTarget(local: LocalState, remote: RemoteState, name: string) returns (t: TargetBranch)
    requires name in local.branches
    ensures t == TargetOfLocal(local, remote, name)
  {
    var lb := local.branches[name];
    var pr := if name in remote.prs then Some(remote.prs[name]) else None;
    var prNumber := if pr.Some? then Some(pr.value.number) else lb.prNumber;
    var parent, expectedPrBase;
    if pr.Some? {
      var available := pr.value.base == local.trunk || pr.value.base in local.branches
                       || pr.value.base in remote.prs.Keys;
      if available && lb.parent != Some(pr.value.base) {
        parent, expectedPrBase := Some(pr.value.base), Some(pr.value.base);
      } else {
        parent, expectedPrBase := lb.parent, lb.parent;
      }
    } else {
      parent, expectedPrBase := lb.parent, lb.parent;
    }
    t := TargetBranch(parent, prNumber, expectedPrBase, lb.existsLocally, lb.pushedToRemote);
  }

  /** The second pass: every open pull request whose head is not yet a target
      branch is added under its base. */
  method AddPrTargets(local: LocalState, remote: RemoteState, branchExists: set<string>, remoteRefs: set<string>,
                      branches0: map<string, TargetBranch>)
    returns (branches: map<string, TargetBranch>)
    requires branches0.Keys == local.branches.Keys
    requires forall n :: n in branches0 ==> branches0[n] == TargetOfLocal(local, remote, n)
    ensures branches.Keys == local.branches.Keys + remote.prs.Keys
    ensures forall n :: n in local.branches ==> branches[n] == TargetOfLocal(local, remote, n)
    ensures forall n :: n in branches && n !in local.branches ==>
      branches[n] == TargetOfPr(n, remote.prs[n], branchExists, remoteRefs)
  {
    branches := branches0;
    var pending := remote.prs.Keys;
    while pending != {}
      invariant pending <= remote.prs.Keys
      invariant branches.Keys == local.branches.Keys + (remote.prs.Keys - pending)
      invariant forall n :: n in local.branches ==> branches[n] == TargetOfLocal(local, remote, n)
      invariant forall n :: n in branches && n !in local.branches ==>
        branches[n] == TargetOfPr(n, remote.prs[n], branchExists, remoteRefs)
      decreases pending
    {
      var name :| name in pending;
      if name !in branches {
        var pr := remote.prs[name];
        var existsLocally := name in branchExists;
        var pushedToRemote := RemoteRef(name) in remoteRefs;
        branches := branches[name := TargetBranch(Some(pr.base), Some(pr.number), Some(pr.base), existsLocally,
                                                  pushedToRemote)];
      }
      pending := pending - {name};
    }
  }

  /** Which branches the target holds, and its trunk. */
  lemma TargetKeys(local: LocalState, remote: RemoteState, branchExists: set<string>, remoteRefs: set<string>)
    ensures var t := Target(local, remote, branchExists, remoteRefs);
      t.trunk == local.trunk && t.branches.Keys == local.branches.Keys + remote.prs.Keys
  {
  }

  /** The pull-request number comes from the open pull request when there is one,
      and otherwise from the number cached in the stack tree. */
  lemma TargetPrNumber(local: LocalState, remote: RemoteState, branchExists: set<string>, remoteRefs: set<string>,
                       n: string)
    requires n in local.branches.Keys + remote.prs.Keys
    ensures var t := Target(local, remote, branchExists, remoteRefs).branches[n];
      t.prNumber == if n in remote.prs then Some(remote.prs[n].number) else local.branches[n].prNumber
  {
  }

  /** The local parent is kept, except that it gives way to an open pull
      request's base that differs from it and is available; the expected base is
      always the chosen parent. */
  lemma TargetParent(local: LocalState, remote: RemoteState, branchExists: set<string>, remoteRefs: set<string>,
                     n: string)
    requires n in local.branches
    ensures var t := Target(local, remote, branchExists, remoteRefs).branches[n];
      && t.expectedPrBase == t.parent
      && (t.parent != local.branches[n].parent <==>
            n in remote.prs && BaseAvailable(local, remote, remote.prs[n].base)
            && local.branches[n].parent != Some(remote.prs[n].base))
      && (t.parent != local.branches[n].parent ==> t.parent == Some(remote.prs[n].base))
  {
  }

  /** An open pull request whose head is not in the local tree is pulled in under
      its base. */
  lemma TargetPullsPr(local: LocalState, remote: RemoteState, branchExists: set<string>, remoteRefs: set<string>,
                      n: string)
    requires n in remote.prs && n !in local.branches
    ensures var t := Target(local, remote, branchExists, remoteRefs).branches[n];
      t.parent == Some(remote.prs[n].base) && t.prNumber == Some(remote.prs[n].number)
      && (t.existsLocally <==> n in branchExists) && (t.pushedToRemote <==> RemoteRef(n) in remoteRefs)
  {
  }

  // ---------------------------------------------------------------------------
  // compute_sync_plan: what each change is for

  /** `n` should be (re)mounted: it has a target parent, and either it has a pull
      request but is not in the local tree, or its local parent differs. */
  predicate NeedsMount(local: LocalState, target: TargetState, n: string) {
    && n in target.branches && n != local.trunk && target.branches[n].parent.Some?
    && (if n in local.branches then local.branches[n].parent != target.branches[n].parent
        else target.branches[n].prNumber.Some?)
  }

  /** `n` should be (re)mounted, and under `p`. */
  predicate WantsMount(local: LocalState, target: TargetState, n: string, p: string) {
    NeedsMount(local, target, n) && target.branches[n].parent == Some(p)
  }

  /** `n` is pulled in from a pull request and has no local branch yet. */
  predicate WantsCheckout(local: LocalState, target: TargetState, n: string) {
    && n in target.branches && n != local.trunk && n !in local.branches
    && target.branches[n].prNumber.Some? && !target.branches[n].existsLocally
  }

  /** The cached pull-request number of `n` is stale and should become `k`. */
  predicate WantsPrUpdate(local: LocalState, target: TargetState, n: string, k: nat) {
    && n in target.branches && n != local.trunk && n in local.branches
    && target.branches[n].prNumber == Some(k) && local.branches[n].prNumber != Some(k)
  }

  /** `n` is a local branch whose pull request was merged: no open pull request,
      and its closed one is merged. */
  predicate MergedBranch(local: LocalState, remote: RemoteState, n: string) {
    && n in local.branches && n != local.trunk && n !in remote.prs
    && n in remote.closedPrs && remote.closedPrs[n].state == Merged
  }

  /** Where the children of an unmounted branch go: its parent, else the trunk. */
  function RepointTo(local: LocalState, n: string): (r: string)
    requires n in local.branches
    ensures local.branches[n].parent.Some? ==> r == local.branches[n].parent.value
    ensures local.branches[n].parent.None? ==> r == local.trunk
  {
    local.branches[n].parent.UnwrapOr(local.trunk)
  }

  /** The retargeting of child `c` of the unmounted branch `u`, when `c` has an
      open pull request based on `u`. */
  predicate ChildNeedsRetarget(local: LocalState, remote: RemoteState, u: string, c: string) {
    && MergedBranch(local, remote, u)
    && c in local.branches && local.branches[c].parent == Some(u)
    && c in remote.prs && remote.prs[c].base == u
  }

  function ChildRetarget(local: LocalState, remote: RemoteState, u: string, c: string): RemoteChange
    requires ChildNeedsRetarget(local, remote, u, c)
  {
    RetargetPr(remote.prs[c].number, c, u, RepointTo(local, u))
  }

  predicate IsChildRetarget(local: LocalState, remote: RemoteState, rc: RemoteChange) {
    rc.RetargetPr? && ChildNeedsRetarget(local, remote, rc.oldBase, rc.branch)
    && rc == ChildRetarget(local, remote, rc.oldBase, rc.branch)
  }

  /** A local, pushed, not merged, non-trunk branch of the target: the only kind
      the push direction looks at. */
  predicate PushCandidate(local: LocalState, remote: RemoteState, target: TargetState, n: string) {
    && n in target.branches && n != local.trunk && n in local.branches
    && !MergedBranch(local, remote, n) && local.branches[n].pushedToRemote
  }

  /** `n`'s open pull request is based elsewhere than its expected base. */
  predicate NeedsBaseRetarget(local: LocalState, remote: RemoteState, target: TargetState, n: string) {
    && PushCandidate(local, remote, target, n) && n in remote.prs
    && target.branches[n].expectedPrBase.Some? && remote.prs[n].base != target.branches[n].expectedPrBase.value
  }

  function BaseRetarget(local: LocalState, remote: RemoteState, target: TargetState, n: string): RemoteChange
    requires NeedsBaseRetarget(local, remote, target, n)
  {
    RetargetPr(remote.prs[n].number, n, remote.prs[n].base, target.branches[n].expectedPrBase.value)
  }

  /** `n` has no pull request at all, open or closed, and an expected base. */
  predicate NeedsNewPr(local: LocalState, remote: RemoteState, target: TargetState, n: string) {
    && PushCandidate(local, remote, target, n) && n !in remote.prs && n !in remote.closedPrs
    && target.branches[n].expectedPrBase.Some?
  }

  function NewPr(local: LocalState, remote: RemoteState, target: TargetState, n: string): RemoteChange
    requires NeedsNewPr(local, remote, target, n)
  {
    CreatePr(n, target.branches[n].expectedPrBase.value, n)
  }

  /** Every local change serves one of the purposes above. */
  predicate LocalJustified(local: LocalState, remote: RemoteState, target: TargetState, c: LocalChange) {
    match c
    case MountBranch(n, p) => WantsMount(local, target, n, p)
    case CheckoutBranch(n) => WantsCheckout(local, target, n)
    case UpdatePrNumber(n, k) => WantsPrUpdate(local, target, n, k)
    case UnmountBranch(n, to) => MergedBranch(local, remote, n) && to == RepointTo(local, n)
  }

  predicate IsMounted(lc: seq<LocalChange>, n: string) {
    exists c :: c in lc && c.MountBranch? && c.name == n
  }

  // ---------------------------------------------------------------------------
  // topological_sort_branches

  /** A branch to mount and the parent to mount it under. */
  type Mount = (string, string)

  /** The branch names of the pairs (`branches_set`). */
  function Names(ps: seq<Mount>): (s: set<string>)
    ensures forall j :: 0 <= j < |ps| ==> ps[j].0 in s
    ensures forall c :: c in s ==> exists j :: 0 <= j < |ps| && ps[j].0 == c
    decreases |ps|
  {
    if ps == [] then {}
    else
      var init := ps[..|ps| - 1];
      var s := Names(init) + {ps[|ps| - 1].0};
      assert forall j :: 0 <= j < |init| ==> init[j] == ps[j];
      s
  }

  /** `branch_to_parent`: collected in order, so a later pair for the same branch
      overwrites an earlier one. */
  function ParentMap(ps: seq<Mount>): (m: map<string, string>)
    ensures m.Keys == Names(ps)
    decreases |ps|
  {
    if ps == [] then map[]
    else ParentMap(ps[..|ps| - 1])[ps[|ps| - 1].0 := ps[|ps| - 1].1]
  }

  /** Every recorded parent comes from a pair of the input. */
  lemma {:induction false} ParentMapPair(ps: seq<Mount>, c: string)
    requires c in Names(ps)
    ensures (c, ParentMap(ps)[c]) in ps
    decreases |ps|
  {
    var init := ps[..|ps| - 1];
    if ps[|ps| - 1].0 != c {
      ParentMapPair(init, c);
      assert (c, ParentMap(init)[c]) in init;
    }
  }

  /** With one pair per branch, the recorded parent is that pair's parent. */
  lemma {:induction false} ParentMapUnique(ps: seq<Mount>, j: nat)
    requires j < |ps|
    requires forall i, k :: 0 <= i < k < |ps| ==> ps[i].0 != ps[k].0
    ensures ps[j].0 in ParentMap(ps) && ParentMap(ps)[ps[j].0] == ps[j].1
    decreases |ps|
  {
    if j < |ps| - 1 {
      var init := ps[..|ps| - 1];
      ParentMapUnique(init, j);
    }
  }

  /** How many pairs of branch `c` name a parent in `names` that is not in `done`:
      the in-degree of `c` once the branches of `done` are mounted. */
  function Pending(ps: seq<Mount>, c: string, names: set<string>, done: set<string>): nat
    decreases |ps|
  {
    if ps == [] then 0
    else
      var last := ps[|ps| - 1];
      Pending(ps[..|ps| - 1], c, names, done) + if last.0 == c && last.1 in names && last.1 !in done then 1 else 0
  }

  /** How many pairs are exactly `(c, b)`. */
  function Links(ps: seq<Mount>, c: string, b: string): nat
    decreases |ps|
  {
    if ps == [] then 0
    else Links(ps[..|ps| - 1], c, b) + if ps[|ps| - 1] == (c, b) then 1 else 0
  }

  /** Mounting `b` releases exactly the pairs that wait on `b`. */
  lemma {:induction false} PendingRelease(ps: seq<Mount>, c: string, names: set<string>, done: set<string>, b: string)
    requires b in names && b !in done
    ensures Pending(ps, c, names, done + {b}) + Links(ps, c, b) == Pending(ps, c, names, done)
    decreases |ps|
  {
    if ps != [] {
      PendingRelease(ps[..|ps| - 1], c, names, done, b);
    }
  }

  /** A branch no pair names has nothing pending. */
  lemma {:induction false} PendingUnnamed(ps: seq<Mount>, c: string, names: set<string>, done: set<string>)
    requires c !in Names(ps)
    ensures Pending(ps, c, names, done) == 0
    decreases |ps|
  {
    if ps != [] {
      PendingUnnamed(ps[..|ps| - 1], c, names, done);
    }
  }

  /** Nothing pending means every parent in `names` of a pair of `c` is in `done`. */
  lemma {:induction false} PendingZero(ps: seq<Mount>, c: string, names: set<string>, done: set<string>, j: nat)
    requires j < |ps| && ps[j].0 == c && ps[j].1 in names
    requires Pending(ps, c, names, done) == 0
    ensures ps[j].1 in done
    decreases |ps|
  {
    if j < |ps| - 1 {
      PendingZero(ps[..|ps| - 1], c, names, done, j);
    }
  }

  /** Something pending means some pair of `c` waits on a parent not yet in `done`. */
  lemma {:induction false} PendingWitness(ps: seq<Mount>, c: string, names: set<string>, done: set<string>)
    requires Pending(ps, c, names, done) > 0
    ensures exists j :: 0 <= j < |ps| && ps[j].0 == c && ps[j].1 in names && ps[j].1 !in done
    decreases |ps|
  {
    var last := ps[|ps| - 1];
    if !(last.0 == c && last.1 in names && last.1 !in done) {
      var init := ps[..|ps| - 1];
      PendingWitness(init, c, names, done);
      var j :| 0 <= j < |init| && init[j].0 == c && init[j].1 in names && init[j].1 !in done;
      assert ps[j] == init[j];
    }
  }

  /** Counting the pairs `(c, b)` one more pair at a time. */
  lemma LinksNext(ps: seq<Mount>, j: nat, c: string, b: string)
    requires j < |ps|
    ensures Links(ps[..j + 1], c, b) == Links(ps[..j], c, b) + if ps[j] == (c, b) then 1 else 0
  {
    assert ps[..j + 1][..j] == ps[..j];
  }

  lemma {:induction false} LinksPrefix(ps: seq<Mount>, j: nat, c: string, b: string)
    requires j <= |ps|
    ensures Links(ps[..j], c, b) <= Links(ps, c, b)
    decreases |ps|
  {
    if j < |ps| {
      assert ps[..|ps| - 1][..j] == ps[..j];
      LinksPrefix(ps[..|ps| - 1], j, c, b);
    } else {
      assert ps[..j] == ps;
    }
  }

  /** The strings of a sequence as a set. */
  function Done(s: seq<string>): set<string> {
    set x | x in s
  }

  /** `c` may be mounted once the branches of `prefix` are: it is to be mounted, it
      is not mounted yet and none of its parents still waits. */
  predicate Ready(ps: seq<Mount>, c: string, prefix: seq<string>) {
    c in Names(ps) && c !in prefix && Pending(ps, c, Names(ps), Done(prefix)) == 0
  }

  /** After `prefix`, the next branch taken is ready and the greatest ready name:
      the queue is kept sorted and the last element is popped. */
  ghost predicate KahnStep(ps: seq<Mount>, prefix: seq<string>, next: string) {
    Ready(ps, next, prefix) && forall c :: Ready(ps, c, prefix) ==> c == next || Less(c, next)
  }

  /** `out` is what Kahn's algorithm emits on `ps`: each step as above, and at the
      end every branch left out still waits on a parent that was left out. */
  ghost predicate KahnOrder(ps: seq<Mount>, out: seq<string>) {
    && (forall i :: 0 <= i < |out| ==> KahnStep(ps, out[..i], out[i]))
    && (forall c :: c in Names(ps) && c !in out ==> Pending(ps, c, Names(ps), Done(out)) > 0)
  }

  function Firsts(r: seq<Mount>): (f: seq<string>)
    ensures |f| == |r| && forall i :: 0 <= i < |r| ==> f[i] == r[i].0
  {
    seq(|r|, i requires 0 <= i < |r| => r[i].0)
  }

  predicate SortedStrict(q: seq<string>) {
    forall i, j :: 0 <= i < j < |q| ==> Less(q[i], q[j])
  }

  /** `queue.push(x); queue.sort()` on a queue that is sorted and lacks `x`. */
  function InsertSorted(q: seq<string>, x: string): (r: seq<string>)
    requires SortedStrict(q) && x !in q
    ensures SortedStrict(r) && |r| == |q| + 1
    ensures forall c :: c in r <==> c in q || c == x
  {
    if q == [] then [x]
    else if Less(x, q[0]) then
      forall j | 0 < j < |q| ensures Less(x, q[j]) {
        LessTransitive(x, q[0], q[j]);
      }
      [x] + q
    else
      var rest := InsertSorted(q[1..], x);
      LessTotal(x, q[0]);
      assert forall c :: c in rest ==> Less(q[0], c);
      [q[0]] + rest
  }

  /** The in-degree of every branch to mount: the number of its pairs whose parent
      is itself to be mounted. */
  method InDegrees(branches: seq<Mount>, names: set<string>) returns (deg: map<string, nat>)
    requires names == Names(branches)
    ensures deg.Keys == names
    ensures forall c :: c in names ==> deg[c] == Pending(branches, c, names, {})
  {
    deg := map[];
    for j := 0 to |branches|
      invariant deg.Keys == Names(branches[..j])
      invariant forall c :: c in deg ==> deg[c] == Pending(branches[..j], c, names, {})
    {
      var (b, p) := branches[j];
      PrefixNext(branches, j, names);
      if b !in deg {
        PendingUnnamed(branches[..j], b, names, {});
      }
      var d := if b in deg then deg[b] else 0;
      if p in names {
        d := d + 1;
      }
      deg := deg[b := d];
    }
    assert branches[..|branches|] == branches;
  }

  /** The names and in-degrees of one more pair. */
  lemma PrefixNext(ps: seq<Mount>, j: nat, names: set<string>)
    requires j < |ps|
    ensures Names(ps[..j + 1]) == Names(ps[..j]) + {ps[j].0}
    ensures forall c :: Pending(ps[..j + 1], c, names, {})
                        == Pending(ps[..j], c, names, {}) + (if ps[j].0 == c && ps[j].1 in names then 1 else 0)
  {
    assert ps[..j + 1][..j] == ps[..j];
  }

  /** The initial queue: the branches of in-degree zero, sorted. Collecting them
      in any order and sorting once gives the same queue as inserting them one by
      one into a sorted queue, which is how it is built here. */
  method ReadyQueue(deg: map<string, nat>) returns (queue: seq<string>)
    ensures SortedStrict(queue)
    ensures forall c :: c in queue <==> c in deg && deg[c] == 0
  {
    queue := [];
    var rest := deg.Keys;
    while rest != {}
      invariant rest <= deg.Keys
      invariant SortedStrict(queue)
      invariant forall c :: c in queue <==> c in deg && deg[c] == 0 && c !in rest
      decreases rest
    {
      var c :| c in rest;
      if deg[c] == 0 {
        queue := InsertSorted(queue, c);
      }
      rest := rest - {c};
    }
  }

  /** The inner loop: every pair `(child, b)` lowers the in-degree of `child` by
      one, and a child that reaches zero joins the queue. The decrement never goes
      below zero, so the `usize` subtraction of the source cannot underflow. */
  method Release(branches: seq<Mount>, names: set<string>, deg: map<string, nat>, queue: seq<string>, b: string)
    returns (deg': map<string, nat>, queue': seq<string>)
    requires deg.Keys == names
    requires forall c :: c in names ==> Links(branches, c, b) <= deg[c]
    requires SortedStrict(queue) && forall q :: q in queue ==> q in names && deg[q] == 0
    ensures deg'.Keys == names
    ensures forall c :: c in names ==> deg'[c] + Links(branches, c, b) == deg[c]
    ensures SortedStrict(queue')
    ensures forall c :: c in queue' <==> c in queue || (c in names && deg[c] > 0 && deg'[c] == 0)
  {
    deg', queue' := deg, queue;
    for j := 0 to |branches|
      invariant deg'.Keys == names
      invariant forall c :: c in names ==> deg'[c] + Links(branches[..j], c, b) == deg[c]
      invariant SortedStrict(queue')
      invariant forall c :: c in queue' <==> c in queue || (c in names && deg[c] > 0 && deg'[c] == 0)
    {
      var (child, parent) := branches[j];
      forall c | c in names ensures Links(branches[..j + 1], c, b) == Links(branches[..j], c, b) + if branches[j] == (c, b) then 1 else 0 {
        LinksNext(branches, j, c, b);
      }
      if parent == b && child in deg' {
        LinksPrefix(branches, j + 1, child, b);
        deg' := deg'[child := deg'[child] - 1];
        if deg'[child] == 0 {
          queue' := InsertSorted(queue', child);
        }
      }
    }
    assert branches[..|branches|] == branches;
  }

  /** The state of the main loop after the branches of `out` were popped: `deg`
      holds every branch's remaining in-degree, `queue` holds, sorted, exactly the
      branches of in-degree zero not yet popped, and every pop so far was a
      `KahnStep`. */
  ghost predicate Frontier(ps: seq<Mount>, names: set<string>, deg: map<string, nat>, queue: seq<string>,
                           out: seq<string>)
  {
    && names == Names(ps) && deg.Keys == names && Done(out) <= names
    && (forall c :: c in names ==> deg[c] == Pending(ps, c, names, Done(out)))
    && (forall c :: c in out ==> deg[c] == 0)
    && SortedStrict(queue)
    && (forall q :: q in queue ==> q in names && q !in out && deg[q] == 0)
    && (forall c :: c in names && c !in out && deg[c] == 0 ==> c in queue)
    && (forall i :: 0 <= i < |out| ==> KahnStep(ps, out[..i], out[i]))
  }

  /** `topological_sort_branches`: Kahn's algorithm over the pairs
      `(branch, parent)`, emitting each branch with its recorded parent, parents
      before children. `trunk` is accepted and not consulted. */
  method TopologicalSortBranches(branches: seq<Mount>, trunk: string) returns (r: seq<Mount>)
    ensures branches == [] ==> r == []
    ensures KahnOrder(branches, Firsts(r))
    ensures forall i :: 0 <= i < |r| ==> r[i].0 in ParentMap(branches) && r[i].1 == ParentMap(branches)[r[i].0]
  {
    if branches == [] {
      return [];
    }
    var parentOf := ParentMap(branches);
    var names := Names(branches);
    var deg := InDegrees(branches, names);
    var queue := ReadyQueue(deg);
    r := [];
    ghost var out: seq<string> := [];
    assert Done(out) == {};
    while queue != []
      invariant Frontier(branches, names, deg, queue, out)
      invariant parentOf == ParentMap(branches)
      invariant Firsts(r) == out
      invariant forall i :: 0 <= i < |r| ==> r[i].0 in parentOf && r[i].1 == parentOf[r[i].0]
      decreases names - Done(out)
    {
      deg, queue, r, out := PopNext(branches, names, parentOf, deg, queue, r, out);
    }
    FrontierEnd(branches, names, deg, out);
  }

  /** One iteration of the main loop: pop the greatest ready branch, emit it with
      its parent, and release the branches waiting on it. */
  method PopNext(branches: seq<Mount>, names: set<string>, parentOf: map<string, string>, deg: map<string, nat>,
                 queue: seq<string>, r: seq<Mount>, ghost out: seq<string>)
    returns (deg': map<string, nat>, queue': seq<string>, r': seq<Mount>, ghost out': seq<string>)
    requires Frontier(branches, names, deg, queue, out) && queue != []
    requires parentOf == ParentMap(branches)
    requires Firsts(r) == out
    requires forall i :: 0 <= i < |r| ==> r[i].0 in parentOf && r[i].1 == parentOf[r[i].0]
    ensures Frontier(branches, names, deg', queue', out')
    ensures Firsts(r') == out'
    ensures forall i :: 0 <= i < |r'| ==> r'[i].0 in parentOf && r'[i].1 == parentOf[r'[i].0]
    ensures names - Done(out') < names - Done(out)
  {
    var b := queue[|queue| - 1];
    var rest := queue[..|queue| - 1];
    r' := r;
    FrontierPop(branches, names, deg, queue, out);
    if b in parentOf {
      r' := r + [(b, parentOf[b])];
      EmitPair(r, out, parentOf, b);
    }
    deg', queue' := Release(branches, names, deg, rest, b);
    FrontierNext(branches, names, deg, queue, out, deg', queue');
    out' := out + [b];
  }

  /** Emitting a branch with its recorded parent keeps the result in step with
      the emitted names. */
  lemma EmitPair(r: seq<Mount>, out: seq<string>, parentOf: map<string, string>, b: string)
    requires Firsts(r) == out && b in parentOf
    requires forall i :: 0 <= i < |r| ==> r[i].0 in parentOf && r[i].1 == parentOf[r[i].0]
    ensures Firsts(r + [(b, parentOf[b])]) == out + [b]
    ensures var r' := r + [(b, parentOf[b])];
      forall i :: 0 <= i < |r'| ==> r'[i].0 in parentOf && r'[i].1 == parentOf[r'[i].0]
  {
    assert Firsts(r + [(b, parentOf[b])]) == Firsts(r) + [b];
  }

  /** What the pop needs: the popped branch is a branch to mount, not popped
      before, and no in-degree is lower than the pairs it is about to release. */
  lemma FrontierPop(ps: seq<Mount>, names: set<string>, deg: map<string, nat>, queue: seq<string>, out: seq<string>)
    requires Frontier(ps, names, deg, queue, out) && queue != []
    ensures var b := queue[|queue| - 1];
      && b in names && b !in out && b in ParentMap(ps)
      && (forall c :: c in names ==> Links(ps, c, b) <= deg[c])
      && SortedStrict(queue[..|queue| - 1])
      && (forall q :: q in queue[..|queue| - 1] ==> q in names && deg[q] == 0)
  {
    var b := queue[|queue| - 1];
    assert b in queue;
    forall c | c in names ensures Links(ps, c, b) <= deg[c] {
      PendingRelease(ps, c, names, Done(out), b);
    }
  }

  /** One iteration of the main loop keeps `Frontier`. */
  lemma FrontierNext(ps: seq<Mount>, names: set<string>, deg: map<string, nat>, queue: seq<string>, out: seq<string>,
                     deg': map<string, nat>, queue': seq<string>)
    requires Frontier(ps, names, deg, queue, out) && queue != []
    requires var b := queue[|queue| - 1];
      && deg'.Keys == names
      && (forall c :: c in names ==> deg'[c] + Links(ps, c, b) == deg[c])
      && SortedStrict(queue')
      && (forall c :: c in queue' <==> c in queue[..|queue| - 1] || (c in names && deg[c] > 0 && deg'[c] == 0))
    ensures var b := queue[|queue| - 1];
      Frontier(ps, names, deg', queue', out + [b]) && Done(out + [b]) == Done(out) + {b} && b in names && b !in out
  {
    var b := queue[|queue| - 1];
    assert b in queue;
    var out' := out + [b];
    assert Done(out') == Done(out) + {b};
    DegreesNext(ps, names, deg, out, b, deg');
    QueueNext(ps, names, deg, queue, out, deg', queue');
    KahnNext(ps, out, b, queue);
  }

  /** After the release, every in-degree counts the parents not yet popped. */
  lemma DegreesNext(ps: seq<Mount>, names: set<string>, deg: map<string, nat>, out: seq<string>, b: string,
                    deg': map<string, nat>)
    requires names == Names(ps) && deg.Keys == names && deg'.Keys == names && Done(out) <= names
    requires b in names && b !in out && deg[b] == 0
    requires forall c :: c in names ==> deg[c] == Pending(ps, c, names, Done(out))
    requires forall c :: c in out ==> deg[c] == 0
    requires forall c :: c in names ==> deg'[c] + Links(ps, c, b) == deg[c]
    ensures forall c :: c in names ==> deg'[c] == Pending(ps, c, names, Done(out + [b]))
    ensures forall c :: c in out + [b] ==> deg'[c] == 0
  {
    assert Done(out + [b]) == Done(out) + {b};
    forall c | c in names ensures deg'[c] == Pending(ps, c, names, Done(out + [b])) {
      PendingRelease(ps, c, names, Done(out), b);
    }
  }

  /** After the release, the queue holds exactly the unpopped branches of
      in-degree zero. */
  lemma QueueNext(ps: seq<Mount>, names: set<string>, deg: map<string, nat>, queue: seq<string>, out: seq<string>,
                  deg': map<string, nat>, queue': seq<string>)
    requires queue != [] && deg.Keys == names && deg'.Keys == names
    requires SortedStrict(queue)
    requires forall q :: q in queue ==> q in names && q !in out && deg[q] == 0
    requires forall c :: c in names && c !in out && deg[c] == 0 ==> c in queue
    requires forall c :: c in out ==> c in names && deg[c] == 0
    requires forall c :: c in names ==> deg'[c] <= deg[c]
    requires forall c :: c in queue' <==> c in queue[..|queue| - 1] || (c in names && deg[c] > 0 && deg'[c] == 0)
    ensures var b := queue[|queue| - 1];
      && (forall q :: q in queue' ==> q in names && q !in out + [b] && deg'[q] == 0)
      && (forall c :: c in names && c !in out + [b] && deg'[c] == 0 ==> c in queue')
  {
    var b := queue[|queue| - 1];
    forall k | 0 <= k < |queue| - 1 ensures queue[k] != b {
      assert Less(queue[k], queue[|queue| - 1]);
      LessIrreflexive(b);
    }
    forall c | c in names && c !in out + [b] && deg'[c] == 0 ensures c in queue' {
      if deg[c] == 0 {
        assert c in queue;
        var k :| 0 <= k < |queue| && queue[k] == c;
        assert c in queue[..|queue| - 1] by { assert k < |queue| - 1; assert queue[..|queue| - 1][k] == c; }
      }
    }
  }

  /** An empty queue ends the loop with the whole `KahnOrder` established. */
  lemma FrontierEnd(ps: seq<Mount>, names: set<string>, deg: map<string, nat>, out: seq<string>)
    requires Frontier(ps, names, deg, [], out)
    ensures KahnOrder(ps, out)
  {
  }

  /** The branch popped from the sorted queue of all ready branches is the step
      `KahnStep` describes, and the earlier steps are unaffected. */
  lemma KahnNext(ps: seq<Mount>, out: seq<string>, b: string, queue: seq<string>)
    requires forall i :: 0 <= i < |out| ==> KahnStep(ps, out[..i], out[i])
    requires queue != [] && b == queue[|queue| - 1] && SortedStrict(queue)
    requires Ready(ps, b, out)
    requires forall c :: Ready(ps, c, out) ==> c in queue
    ensures forall i :: 0 <= i < |out| + 1 ==> KahnStep(ps, (out + [b])[..i], (out + [b])[i])
  {
    forall i | 0 <= i < |out| + 1 ensures KahnStep(ps, (out + [b])[..i], (out + [b])[i]) {
      if i < |out| {
        assert (out + [b])[..i] == out[..i];
      } else {
        assert (out + [b])[..i] == out;
      }
    }
  }

  /** A branch is emitted only after every parent of it that is also to be mounted. */
  lemma KahnParentsFirst(ps: seq<Mount>, out: seq<string>, i: nat, j: nat)
    requires KahnOrder(ps, out) && i < |out| && j < |ps|
    requires ps[j].0 == out[i] && ps[j].1 in Names(ps)
    ensures ps[j].1 in out[..i]
  {
    assert KahnStep(ps, out[..i], out[i]);
    PendingZero(ps, out[i], Names(ps), Done(out[..i]), j);
  }

  /** Nothing is emitted twice. */
  lemma KahnDistinct(ps: seq<Mount>, out: seq<string>, i: nat, k: nat)
    requires KahnOrder(ps, out) && i < k < |out|
    ensures out[i] != out[k]
  {
    assert KahnStep(ps, out[..k], out[k]);
    assert out[..k][i] == out[i];
  }

  /** In the sorted list, a branch whose recorded parent is also emitted comes
      after that parent. */
  lemma TopoParentFirst(ps: seq<Mount>, r: seq<Mount>, i: nat, k: nat)
    requires KahnOrder(ps, Firsts(r))
    requires forall n :: 0 <= n < |r| ==> r[n].0 in ParentMap(ps) && r[n].1 == ParentMap(ps)[r[n].0]
    requires i < |r| && k < |r| && r[k].0 == r[i].1
    ensures k < i
  {
    var out := Firsts(r);
    ParentMapPair(ps, r[i].0);
    var j :| 0 <= j < |ps| && ps[j] == (r[i].0, r[i].1);
    assert KahnStep(ps, out[..k], out[k]);
    KahnParentsFirst(ps, out, i, j);
    var k' :| 0 <= k' < i && out[..i][k'] == r[i].1;
    if k < k' {
      KahnDistinct(ps, out, k, k');
    }
  }

  /** Parent links among the branches to mount are acyclic when some ranking puts
      every to-be-mounted parent strictly below its child. */
  ghost predicate Ranked(ps: seq<Mount>, rank: map<string, nat>) {
    && (forall c :: c in Names(ps) ==> c in rank)
    && (forall j :: 0 <= j < |ps| && ps[j].1 in Names(ps) ==> rank[ps[j].1] < rank[ps[j].0])
  }

  lemma {:induction false} KahnCompleteBelow(ps: seq<Mount>, out: seq<string>, rank: map<string, nat>, n: nat)
    requires KahnOrder(ps, out) && Ranked(ps, rank)
    ensures forall c :: c in Names(ps) && rank[c] < n ==> c in out
  {
    if n > 0 {
      KahnCompleteBelow(ps, out, rank, n - 1);
      forall c | c in Names(ps) && rank[c] == n - 1 ensures c in out {
        if c !in out {
          PendingWitness(ps, c, Names(ps), Done(out));
        }
      }
    }
  }

  /** With acyclic parent links every branch to mount is emitted. */
  lemma KahnComplete(ps: seq<Mount>, out: seq<string>, rank: map<string, nat>)
    requires KahnOrder(ps, out) && Ranked(ps, rank)
    ensures forall c :: c in Names(ps) ==> c in out
  {
    forall c | c in Names(ps) ensures c in out {
      KahnCompleteBelow(ps, out, rank, rank[c] + 1);
    }
  }

  predicate Distinct<T(==)>(s: seq<T>) {
    forall i, j :: 0 <= i < j < |s| ==> s[i] != s[j]
  }

  /** No two entries share their first component. */
  predicate UniqueKeys<T>(s: seq<(string, T)>) {
    forall i, k :: 0 <= i < k < |s| ==> s[i].0 != s[k].0
  }

  /** No two remote changes are about the same branch. */
  predicate UniqueBranches(rc: seq<RemoteChange>) {
    forall i, k :: 0 <= i < k < |rc| ==> rc[i].branch != rc[k].branch
  }

  lemma UniqueBranchesDistinct(rc: seq<RemoteChange>)
    requires UniqueBranches(rc)
    ensures Distinct(rc)
  {
  }

  /** Two lists without repeats, with nothing in common, joined. */
  lemma DistinctAppend<T>(a: seq<T>, b: seq<T>)
    requires Distinct(a) && Distinct(b) && forall x :: x in a ==> x !in b
    ensures Distinct(a + b)
  {
    forall i, j | 0 <= i < j < |a + b| ensures (a + b)[i] != (a + b)[j] {
      if j >= |a| && i < |a| {
        assert (a + b)[i] == a[i] && (a + b)[j] == b[j - |a|];
        assert a[i] in a;
      } else if i >= |a| {
        assert (a + b)[i] == b[i - |a|] && (a + b)[j] == b[j - |a|];
      } else {
        assert (a + b)[i] == a[i] && (a + b)[j] == a[j];
      }
    }
  }

  lemma {:induction false} DistinctCount<T>(s: seq<T>, x: T)
    requires Distinct(s)
    ensures multiset(s)[x] == if x in s then 1 else 0
  {
    if s != [] {
      assert s == [s[0]] + s[1..];
      DistinctCount(s[1..], x);
    }
  }

  /** With one pair per branch and acyclic parent links, the sorted list is a
      permutation of the input. */
  lemma TopoPermutation(ps: seq<Mount>, r: seq<Mount>, rank: map<string, nat>)
    requires KahnOrder(ps, Firsts(r)) && Ranked(ps, rank)
    requires forall n :: 0 <= n < |r| ==> r[n].0 in ParentMap(ps) && r[n].1 == ParentMap(ps)[r[n].0]
    requires forall i, k :: 0 <= i < k < |ps| ==> ps[i].0 != ps[k].0
    ensures multiset(r) == multiset(ps)
  {
    TopoSameElements(ps, r, rank);
    assert Distinct(r) by {
      forall i, k | 0 <= i < k < |r| ensures r[i] != r[k] {
        KahnDistinct(ps, Firsts(r), i, k);
      }
    }
    forall x ensures multiset(r)[x] == multiset(ps)[x] {
      DistinctCount(r, x);
      DistinctCount(ps, x);
    }
  }

  lemma TopoSameElements(ps: seq<Mount>, r: seq<Mount>, rank: map<string, nat>)
    requires KahnOrder(ps, Firsts(r)) && Ranked(ps, rank)
    requires forall n :: 0 <= n < |r| ==> r[n].0 in ParentMap(ps) && r[n].1 == ParentMap(ps)[r[n].0]
    requires forall i, k :: 0 <= i < k < |ps| ==> ps[i].0 != ps[k].0
    ensures forall x :: x in r <==> x in ps
  {
    KahnComplete(ps, Firsts(r), rank);
    SortedFromInput(ps, r);
    InputSorted(ps, r);
  }

  /** Every pair of the result is a pair of the input. */
  lemma SortedFromInput(ps: seq<Mount>, r: seq<Mount>)
    requires forall n :: 0 <= n < |r| ==> r[n].0 in ParentMap(ps) && r[n].1 == ParentMap(ps)[r[n].0]
    ensures forall x :: x in r ==> x in ps
  {
    forall x | x in r ensures x in ps {
      ParentMapPair(ps, x.0);
    }
  }

  /** When every branch is emitted and branches are not repeated, every pair of
      the input is in the result. */
  lemma InputSorted(ps: seq<Mount>, r: seq<Mount>)
    requires forall c :: c in Names(ps) ==> c in Firsts(r)
    requires forall n :: 0 <= n < |r| ==> r[n].0 in ParentMap(ps) && r[n].1 == ParentMap(ps)[r[n].0]
    requires forall i, k :: 0 <= i < k < |ps| ==> ps[i].0 != ps[k].0
    ensures forall x :: x in ps ==> x in r
  {
    forall x | x in ps ensures x in r {
      var j :| 0 <= j < |ps| && ps[j] == x;
      InputPairSorted(ps, r, j);
    }
  }

  lemma InputPairSorted(ps: seq<Mount>, r: seq<Mount>, j: nat)
    requires j < |ps| && ps[j].0 in Firsts(r)
    requires forall n :: 0 <= n < |r| ==> r[n].0 in ParentMap(ps) && r[n].1 == ParentMap(ps)[r[n].0]
    requires forall i, k :: 0 <= i < k < |ps| ==> ps[i].0 != ps[k].0
    ensures ps[j] in r
  {
    ParentMapUnique(ps, j);
    var out := Firsts(r);
    var i :| 0 <= i < |out| && out[i] == ps[j].0;
    assert r[i] == ps[j];
  }

  /** A branch on a cycle of parent links is never emitted. */
  lemma {:induction false} KahnCycleAt(ps: seq<Mount>, out: seq<string>, cyc: seq<string>, i: nat)
    requires KahnOrder(ps, out) && i < |out| && cyc != []
    requires forall k {:trigger cyc[k]} :: 0 <= k < |cyc| ==> (cyc[k], cyc[(k + 1) % |cyc|]) in ps
    ensures out[i] !in cyc
    decreases i
  {
    if out[i] in cyc {
      var k :| 0 <= k < |cyc| && cyc[k] == out[i];
      var next := cyc[(k + 1) % |cyc|];
      var j :| 0 <= j < |ps| && ps[j] == (out[i], next);
      var j' :| 0 <= j' < |ps| && ps[j'] == (next, cyc[((k + 1) % |cyc| + 1) % |cyc|]);
      KahnParentsFirst(ps, out, i, j);
      var i' :| 0 <= i' < i && out[..i][i'] == next;
      KahnCycleAt(ps, out, cyc, i');
    }
  }

  lemma KahnCycle(ps: seq<Mount>, out: seq<string>, cyc: seq<string>)
    requires KahnOrder(ps, out) && cyc != []
    requires forall k {:trigger cyc[k]} :: 0 <= k < |cyc| ==> (cyc[k], cyc[(k + 1) % |cyc|]) in ps
    ensures forall c :: c in cyc ==> c !in out
  {
    forall i | 0 <= i < |out| ensures out[i] !in cyc {
      KahnCycleAt(ps, out, cyc, i);
    }
  }

  // ---------------------------------------------------------------------------
  // compute_sync_plan

  /** The pull direction's scan of the target: the branches to (re)mount with
      their parents, the branches to check out first, and the stale cached
      pull-request numbers. */
  method CollectPullChanges(local: LocalState, target: TargetState)
    returns (toMount: seq<Mount>, toCheckout: set<string>, prUpdates: seq<(string, nat)>)
    ensures forall j :: 0 <= j < |toMount| ==> WantsMount(local, target, toMount[j].0, toMount[j].1)
    ensures forall n, p :: WantsMount(local, target, n, p) ==> (n, p) in toMount
    ensures forall i, k :: 0 <= i < k < |toMount| ==> toMount[i].0 != toMount[k].0
    ensures forall n :: n in toCheckout <==> WantsCheckout(local, target, n)
    ensures forall n, k: nat :: (n, k) in prUpdates <==> WantsPrUpdate(local, target, n, k)
    ensures UniqueKeys(prUpdates)
  {
    toMount, toCheckout, prUpdates := [], {}, [];
    var todo := target.branches.Keys;
    while todo != {}
      invariant todo <= target.branches.Keys
      invariant forall j :: 0 <= j < |toMount| ==>
        WantsMount(local, target, toMount[j].0, toMount[j].1) && toMount[j].0 !in todo
      invariant forall n, p :: n !in todo && WantsMount(local, target, n, p) ==> (n, p) in toMount
      invariant forall i, k :: 0 <= i < k < |toMount| ==> toMount[i].0 != toMount[k].0
      invariant forall n :: n in toCheckout <==> n !in todo && WantsCheckout(local, target, n)
      invariant forall n, k: nat :: (n, k) in prUpdates <==> n !in todo && WantsPrUpdate(local, target, n, k)
      invariant UniqueKeys(prUpdates)
      decreases todo
    {
      var name :| name in todo;
      var tb := target.branches[name];
      if name != local.trunk {
        if name !in local.branches && tb.prNumber.Some? {
          if tb.parent.Some? {
            toMount := toMount + [(name, tb.parent.value)];
          }
          if !tb.existsLocally {
            toCheckout := toCheckout + {name};
          }
        }
        if name in local.branches {
          var lb := local.branches[name];
          if tb.prNumber.Some? && lb.prNumber != Some(tb.prNumber.value) {
            assert forall j :: 0 <= j < |prUpdates| ==> prUpdates[j] in prUpdates;
            prUpdates := prUpdates + [(name, tb.prNumber.value)];
          }
          if lb.parent != tb.parent && tb.parent.Some? {
            toMount := toMount + [(name, tb.parent.value)];
          }
        }
      }
      todo := todo - {name};
    }
  }

  /** A pair's parent, when it is itself in the list, comes earlier. */
  predicate ParentsBefore(sorted: seq<Mount>) {
    forall a, b :: 0 <= a < |sorted| && 0 <= b < |sorted| && sorted[b].0 == sorted[a].1 ==> b < a
  }

  /** Every checkout is immediately followed by the mount of the same branch. */
  predicate CheckoutThenMount(lc: seq<LocalChange>) {
    forall i :: 0 <= i < |lc| && lc[i].CheckoutBranch? ==>
      i + 1 < |lc| && lc[i + 1].MountBranch? && lc[i + 1].name == lc[i].name
  }

  /** A branch is mounted after its new parent when both are mounted. */
  predicate MountsOrdered(lc: seq<LocalChange>) {
    forall i, k ::
      (0 <= i < |lc| && 0 <= k < |lc| && lc[i].MountBranch? && lc[k].MountBranch? && lc[k].name == lc[i].parent)
      ==> k < i
  }

  /** The state of the loop of `EmitMounts` after the first `j` pairs: `pos`
      records, for every emitted change, the pair it was emitted for. */
  ghost predicate Emitted(sorted: seq<Mount>, toCheckout: set<string>, j: nat, lc: seq<LocalChange>, pos: seq<nat>) {
    && j <= |sorted| && |pos| == |lc|
    && (forall i :: 0 <= i < |lc| ==> pos[i] < j)
    && (forall i, k :: 0 <= i <= k < |lc| ==> pos[i] <= pos[k])
    && (forall i :: 0 <= i < |lc| && lc[i].MountBranch? ==> sorted[pos[i]] == (lc[i].name, lc[i].parent))
    && (forall c :: c in lc ==>
          (c.MountBranch? && (c.name, c.parent) in sorted) || (c.CheckoutBranch? && c.name in toCheckout))
    && (forall a :: 0 <= a < j ==> MountBranch(sorted[a].0, sorted[a].1) in lc)
    && (forall a :: 0 <= a < j && sorted[a].0 in toCheckout ==> CheckoutBranch(sorted[a].0) in lc)
    && CheckoutThenMount(lc)
  }

  /** The mounts in topological order, each preceded by its checkout when the
      branch has to be checked out first. */
  method EmitMounts(sorted: seq<Mount>, toCheckout: set<string>) returns (lc: seq<LocalChange>)
    requires ParentsBefore(sorted)
    ensures forall c :: c in lc ==>
      (c.MountBranch? && (c.name, c.parent) in sorted) || (c.CheckoutBranch? && c.name in toCheckout)
    ensures forall j :: 0 <= j < |sorted| ==> MountBranch(sorted[j].0, sorted[j].1) in lc
    ensures forall j :: 0 <= j < |sorted| && sorted[j].0 in toCheckout ==> CheckoutBranch(sorted[j].0) in lc
    ensures CheckoutThenMount(lc) && MountsOrdered(lc)
    ensures UniqueKeys(sorted) ==> Distinct(lc)
  {
    lc := [];
    ghost var pos: seq<nat> := [];
    for j := 0 to |sorted|
      invariant Emitted(sorted, toCheckout, j, lc, pos)
      invariant forall i :: 0 <= i < |lc| ==> Subject(lc[i]) == sorted[pos[i]].0
      invariant UniqueKeys(sorted) ==> Distinct(lc)
    {
      var (name, parent) := sorted[j];
      ghost var lc0, pos0 := lc, pos;
      if name in toCheckout {
        lc := lc + [CheckoutBranch(name)];
        pos := pos + [j];
      }
      lc := lc + [MountBranch(name, parent)];
      pos := pos + [j];
      EmittedNext(sorted, toCheckout, j, lc0, pos0, lc, pos);
      EmittedDistinct(sorted, j, lc0, pos0, lc, pos);
    }
    EmittedOrdered(sorted, toCheckout, lc, pos);
  }

  lemma EmittedNext(sorted: seq<Mount>, toCheckout: set<string>, j: nat, lc: seq<LocalChange>, pos: seq<nat>,
                    lc': seq<LocalChange>, pos': seq<nat>)
    requires j < |sorted| && Emitted(sorted, toCheckout, j, lc, pos)
    requires var (name, parent) := sorted[j];
      if name in toCheckout then lc' == lc + [CheckoutBranch(name), MountBranch(name, parent)] && pos' == pos + [j, j]
      else lc' == lc + [MountBranch(name, parent)] && pos' == pos + [j]
    ensures Emitted(sorted, toCheckout, j + 1, lc', pos')
  {
    assert sorted[j] in sorted;
    EmittedPositions(sorted, j, lc, pos, lc', pos');
    EmittedLayout(lc, lc', sorted[j].0, sorted[j].1);
  }

  /** The changes for one more pair are about a branch no earlier change is
      about, so no change repeats when no branch does. */
  lemma EmittedDistinct(sorted: seq<Mount>, j: nat, lc: seq<LocalChange>, pos: seq<nat>,
                        lc': seq<LocalChange>, pos': seq<nat>)
    requires j < |sorted| && |pos| == |lc|
    requires forall i :: 0 <= i < |lc| ==> pos[i] < j && Subject(lc[i]) == sorted[pos[i]].0
    requires UniqueKeys(sorted) ==> Distinct(lc)
    requires var (name, parent) := sorted[j];
      || (lc' == lc + [CheckoutBranch(name), MountBranch(name, parent)] && pos' == pos + [j, j])
      || (lc' == lc + [MountBranch(name, parent)] && pos' == pos + [j])
    ensures forall i :: 0 <= i < |lc'| ==> Subject(lc'[i]) == sorted[pos'[i]].0
    ensures UniqueKeys(sorted) ==> Distinct(lc')
  {
    var added := lc'[|lc|..];
    assert lc' == lc + added;
    if UniqueKeys(sorted) {
      forall x | x in lc ensures x !in added {
        var i :| 0 <= i < |lc| && lc[i] == x;
        assert Subject(x) != sorted[j].0;
      }
      DistinctAppend(lc, added);
    }
  }

  /** The position bookkeeping of one more pair. */
  lemma EmittedPositions(sorted: seq<Mount>, j: nat, lc: seq<LocalChange>, pos: seq<nat>,
                         lc': seq<LocalChange>, pos': seq<nat>)
    requires j < |sorted| && |pos| == |lc|
    requires forall i :: 0 <= i < |lc| ==> pos[i] < j
    requires forall i :: 0 <= i < |lc| && lc[i].MountBranch? ==> sorted[pos[i]] == (lc[i].name, lc[i].parent)
    requires var (name, parent) := sorted[j];
      || (lc' == lc + [CheckoutBranch(name), MountBranch(name, parent)] && pos' == pos + [j, j])
      || (lc' == lc + [MountBranch(name, parent)] && pos' == pos + [j])
    ensures |pos'| == |lc'| && forall i :: 0 <= i < |lc'| ==> pos'[i] < j + 1
    ensures forall i :: 0 <= i < |lc'| && lc'[i].MountBranch? ==> sorted[pos'[i]] == (lc'[i].name, lc'[i].parent)
  {
  }

  /** Appending a mount, or a checkout and the mount of the same branch, keeps
      every checkout right before its mount. */
  lemma EmittedLayout(lc: seq<LocalChange>, lc': seq<LocalChange>, n: string, p: string)
    requires CheckoutThenMount(lc)
    requires lc' == lc + [CheckoutBranch(n), MountBranch(n, p)] || lc' == lc + [MountBranch(n, p)]
    ensures CheckoutThenMount(lc')
  {
    forall i | 0 <= i < |lc'| && lc'[i].CheckoutBranch?
      ensures i + 1 < |lc'| && lc'[i + 1].MountBranch? && lc'[i + 1].name == lc'[i].name
    {
      if i < |lc| {
        assert lc'[i] == lc[i];
      }
    }
  }

  lemma EmittedOrdered(sorted: seq<Mount>, toCheckout: set<string>, lc: seq<LocalChange>, pos: seq<nat>)
    requires ParentsBefore(sorted) && Emitted(sorted, toCheckout, |sorted|, lc, pos)
    ensures MountsOrdered(lc)
  {
    forall i, k | 0 <= i < |lc| && 0 <= k < |lc| && lc[i].MountBranch? && lc[k].MountBranch?
      && lc[k].name == lc[i].parent
      ensures k < i
    {
      assert sorted[pos[k]].0 == sorted[pos[i]].1;
    }
  }

  /** The stale cached numbers, in the order they were found. */
  method EmitPrUpdates(prUpdates: seq<(string, nat)>) returns (lc: seq<LocalChange>)
    ensures |lc| == |prUpdates|
    ensures forall i :: 0 <= i < |lc| ==> lc[i] == UpdatePrNumber(prUpdates[i].0, prUpdates[i].1)
    ensures UniqueKeys(prUpdates) ==> Distinct(lc)
  {
    lc := [];
    for i := 0 to |prUpdates|
      invariant |lc| == i
      invariant forall k :: 0 <= k < i ==> lc[k] == UpdatePrNumber(prUpdates[k].0, prUpdates[k].1)
    {
      lc := lc + [UpdatePrNumber(prUpdates[i].0, prUpdates[i].1)];
    }
  }

  /** The local branches whose pull request was merged, each with the branch its
      children are to be repointed to. */
  method CollectUnmounts(local: LocalState, remote: RemoteState) returns (unmounts: seq<(string, string)>)
    ensures forall u :: u in unmounts <==> MergedBranch(local, remote, u.0) && u.1 == RepointTo(local, u.0)
    ensures UniqueKeys(unmounts)
  {
    unmounts := [];
    var todo := local.branches.Keys;
    while todo != {}
      invariant todo <= local.branches.Keys
      invariant forall u :: u in unmounts <==>
        u.0 !in todo && MergedBranch(local, remote, u.0) && u.1 == RepointTo(local, u.0)
      invariant UniqueKeys(unmounts)
      decreases todo
    {
      var name :| name in todo;
      if name != local.trunk && name !in remote.prs && name in remote.closedPrs {
        var closed := remote.closedPrs[name];
        if closed.state == Merged {
          var repointTo := local.branches[name].parent.UnwrapOr(local.trunk);
          assert forall j :: 0 <= j < |unmounts| ==> unmounts[j] in unmounts;
          unmounts := unmounts + [(name, repointTo)];
        }
      }
      todo := todo - {name};
    }
  }

  /** The inner loop over the local branches: every child of the unmounted `u`
      whose open pull request is based on `u` is retargeted to `to`. */
  method ChildRetargets(local: LocalState, remote: RemoteState, u: string, to: string) returns (rc: seq<RemoteChange>)
    requires MergedBranch(local, remote, u) && to == RepointTo(local, u)
    ensures forall c :: c in rc ==> IsChildRetarget(local, remote, c) && c.oldBase == u
    ensures forall c :: ChildNeedsRetarget(local, remote, u, c) ==> ChildRetarget(local, remote, u, c) in rc
    ensures UniqueBranches(rc)
  {
    rc := [];
    var todo := local.branches.Keys;
    while todo != {}
      invariant todo <= local.branches.Keys
      invariant forall c :: c in rc ==> IsChildRetarget(local, remote, c) && c.oldBase == u
      invariant forall c :: c !in todo && ChildNeedsRetarget(local, remote, u, c) ==> ChildRetarget(local, remote, u, c) in rc
      invariant forall c :: c in rc ==> c.branch !in todo
      invariant UniqueBranches(rc)
      decreases todo
    {
      var child :| child in todo;
      if local.branches[child].parent == Some(u) && child in remote.prs {
        var pr := remote.prs[child];
        if pr.base == u {
          assert forall j :: 0 <= j < |rc| ==> rc[j] in rc;
          rc := rc + [RetargetPr(pr.number, child, u, to)];
        }
      }
      todo := todo - {child};
    }
  }

  /** The unmounts, and the retargeting of the children of each unmounted branch. */
  method EmitUnmounts(local: LocalState, remote: RemoteState, unmounts: seq<(string, string)>)
    returns (lc: seq<LocalChange>, rc: seq<RemoteChange>)
    requires forall u :: u in unmounts ==> MergedBranch(local, remote, u.0) && u.1 == RepointTo(local, u.0)
    ensures |lc| == |unmounts|
    ensures forall i :: 0 <= i < |lc| ==> lc[i] == UnmountBranch(unmounts[i].0, unmounts[i].1)
    ensures forall c :: c in rc ==> IsChildRetarget(local, remote, c)
    ensures forall u, c :: u in unmounts && ChildNeedsRetarget(local, remote, u.0, c) ==>
      ChildRetarget(local, remote, u.0, c) in rc
    ensures UniqueKeys(unmounts) ==> Distinct(lc) && UniqueBranches(rc)
  {
    lc, rc := [], [];
    for i := 0 to |unmounts|
      invariant |lc| == i
      invariant forall k :: 0 <= k < i ==> lc[k] == UnmountBranch(unmounts[k].0, unmounts[k].1)
      invariant forall c :: c in rc ==> IsChildRetarget(local, remote, c)
      invariant forall k, c :: 0 <= k < i && ChildNeedsRetarget(local, remote, unmounts[k].0, c) ==>
        ChildRetarget(local, remote, unmounts[k].0, c) in rc
      invariant UniqueKeys(unmounts) ==>
        UniqueBranches(rc) && forall c, k :: c in rc && c.RetargetPr? && i <= k < |unmounts| ==> c.oldBase != unmounts[k].0
    {
      var (name, repointTo) := unmounts[i];
      assert unmounts[i] in unmounts;
      lc := lc + [UnmountBranch(name, repointTo)];
      var more := ChildRetargets(local, remote, name, repointTo);
      ghost var rc0 := rc;
      rc := rc + more;
      RetargetsAppend(local, remote, unmounts, i, rc0, more);
    }
  }

  /** The retargets for the `i`-th unmounted branch are about children of that
      branch, and no child has two parents, so they share no branch with the
      retargets for the branches before it. */
  lemma RetargetsAppend(local: LocalState, remote: RemoteState, unmounts: seq<(string, string)>, i: nat,
                        rc: seq<RemoteChange>, more: seq<RemoteChange>)
    requires i < |unmounts|
    requires forall c :: c in rc ==> IsChildRetarget(local, remote, c)
    requires forall c :: c in more ==> IsChildRetarget(local, remote, c) && c.oldBase == unmounts[i].0
    requires UniqueBranches(more)
    requires UniqueKeys(unmounts) ==>
      UniqueBranches(rc) && forall c, k :: c in rc && c.RetargetPr? && i <= k < |unmounts| ==> c.oldBase != unmounts[k].0
    ensures UniqueKeys(unmounts) ==>
      UniqueBranches(rc + more) && forall c, k :: c in rc + more && c.RetargetPr? && i + 1 <= k < |unmounts| ==> c.oldBase != unmounts[k].0
  {
    if UniqueKeys(unmounts) {
      forall a, b | 0 <= a < b < |rc + more| ensures (rc + more)[a].branch != (rc + more)[b].branch {
        if a < |rc| && b >= |rc| {
          var x, y := rc[a], more[b - |rc|];
          assert (rc + more)[a] == x && (rc + more)[b] == y;
          assert x in rc && y in more;
          assert x.oldBase != unmounts[i].0;
        } else if a >= |rc| {
          assert (rc + more)[a] == more[a - |rc|] && (rc + more)[b] == more[b - |rc|];
        } else {
          assert (rc + more)[a] == rc[a] && (rc + more)[b] == rc[b];
        }
      }
    }
  }

  /** What the push direction emits. */
  predicate IsPushChange(local: LocalState, remote: RemoteState, target: TargetState, c: RemoteChange) {
    || (c.RetargetPr? && NeedsBaseRetarget(local, remote, target, c.branch)
        && c == BaseRetarget(local, remote, target, c.branch))
    || (c.CreatePr? && NeedsNewPr(local, remote, target, c.branch) && c == NewPr(local, remote, target, c.branch))
  }

  /** The push direction: retarget open pull requests whose base is not the
      expected one, and open a pull request, titled with the branch name, for each
      pushed branch that never had one. */
  method PushChanges(local: LocalState, remote: RemoteState, target: TargetState, merged: set<string>)
    returns (rc: seq<RemoteChange>)
    requires forall n :: n in merged <==> MergedBranch(local, remote, n)
    ensures forall c :: c in rc ==> IsPushChange(local, remote, target, c)
    ensures forall n :: NeedsBaseRetarget(local, remote, target, n) ==> BaseRetarget(local, remote, target, n) in rc
    ensures forall n :: NeedsNewPr(local, remote, target, n) ==> NewPr(local, remote, target, n) in rc
    ensures UniqueBranches(rc)
  {
    rc := [];
    var todo := target.branches.Keys;
    while todo != {}
      invariant todo <= target.branches.Keys
      invariant forall c :: c in rc ==> IsPushChange(local, remote, target, c)
      invariant forall n :: n !in todo && NeedsBaseRetarget(local, remote, target, n) ==>
        BaseRetarget(local, remote, target, n) in rc
      invariant forall n :: n !in todo && NeedsNewPr(local, remote, target, n) ==> NewPr(local, remote, target, n) in rc
      invariant forall c :: c in rc ==> c.branch !in todo
      invariant UniqueBranches(rc)
      decreases todo
    {
      var name :| name in todo;
      assert forall j :: 0 <= j < |rc| ==> rc[j] in rc;
      todo := todo - {name};
      if name == local.trunk || name !in local.branches || name in merged {
        continue;
      }
      if !local.branches[name].pushedToRemote {
        continue;
      }
      var expected := target.branches[name].expectedPrBase;
      if name in remote.prs && expected.Some? && remote.prs[name].base != expected.value {
        var pr := remote.prs[name];
        rc := rc + [RetargetPr(pr.number, name, pr.base, expected.value)];
      } else if name !in remote.prs && expected.Some? {
        if name in remote.closedPrs {
          continue;
        }
        rc := rc + [CreatePr(name, expected.value, name)];
      }
    }
  }

  /** A wanted mount that is missing waits on a parent whose own wanted mount is
      missing too: only branches caught in a cycle of wanted mounts are left out. */
  ghost predicate MountsWait(local: LocalState, target: TargetState, lc: seq<LocalChange>) {
    forall n, p :: WantsMount(local, target, n, p) && !IsMounted(lc, n) ==>
      !IsMounted(lc, p) && NeedsMount(local, target, p)
  }

  /** The branch a local change is about. */
  function Subject(c: LocalChange): string {
    match c
    case MountBranch(n, _) => n
    case UnmountBranch(n, _) => n
    case UpdatePrNumber(n, _) => n
    case CheckoutBranch(n) => n
  }

  /** The pull direction's share of the local changes: mounts with their
      checkouts, then stale pull-request numbers. */
  ghost predicate PullChanges(local: LocalState, remote: RemoteState, target: TargetState, lc: seq<LocalChange>) {
    && (forall c :: c in lc ==> LocalJustified(local, remote, target, c) && !c.UnmountBranch?)
    && CheckoutThenMount(lc) && MountsOrdered(lc) && MountsWait(local, target, lc)
    && (forall n, k: nat :: WantsPrUpdate(local, target, n, k) ==> UpdatePrNumber(n, k) in lc)
    && (forall n :: WantsCheckout(local, target, n) && IsMounted(lc, n) ==> CheckoutBranch(n) in lc)
  }

  /** `compute_sync_plan`: the local and remote changes that bring both sides to
      the target. Map iteration order is left open, so the plan is described up to
      the order of its independent parts; the order that matters (parents mounted
      first, a checkout right before its mount) is stated outright. */
  method ComputeSyncPlan(local: LocalState, remote: RemoteState, target: TargetState, options: SyncOptions)
    returns (plan: SyncPlan)
    ensures options.pushOnly ==> plan.localChanges == []
    ensures forall c :: c in plan.localChanges ==>
      LocalJustified(local, remote, target, c) && Subject(c) != local.trunk
    ensures CheckoutThenMount(plan.localChanges) && MountsOrdered(plan.localChanges)
    ensures !options.pushOnly ==> MountsWait(local, target, plan.localChanges)
    ensures !options.pushOnly ==> forall n, k: nat :: WantsPrUpdate(local, target, n, k) ==>
      UpdatePrNumber(n, k) in plan.localChanges
    ensures !options.pushOnly ==> forall n :: WantsCheckout(local, target, n) && IsMounted(plan.localChanges, n) ==>
      CheckoutBranch(n) in plan.localChanges
    ensures !options.pushOnly ==> forall n :: MergedBranch(local, remote, n) ==>
      UnmountBranch(n, RepointTo(local, n)) in plan.localChanges
    ensures forall rc :: rc in plan.remoteChanges ==>
      (!options.pushOnly && IsChildRetarget(local, remote, rc)) || (!options.pullOnly && IsPushChange(local, remote, target, rc))
    ensures !options.pushOnly ==> forall u, c :: ChildNeedsRetarget(local, remote, u, c) ==>
      ChildRetarget(local, remote, u, c) in plan.remoteChanges
    ensures !options.pullOnly ==> forall n :: NeedsBaseRetarget(local, remote, target, n) ==>
      BaseRetarget(local, remote, target, n) in plan.remoteChanges
    ensures !options.pullOnly ==> forall n :: NeedsNewPr(local, remote, target, n) ==>
      NewPr(local, remote, target, n) in plan.remoteChanges
    ensures Distinct(plan.localChanges)
    ensures options.pushOnly || options.pullOnly || ExpectsOwnBase(local, remote, target) ==>
      UniqueBranches(plan.remoteChanges) && Distinct(plan.remoteChanges)
    ensures plan.warnings == []
    ensures options.pushOnly && options.pullOnly ==> plan.IsEmpty()
  {
    var localChanges: seq<LocalChange> := [];
    var remoteChanges: seq<RemoteChange> := [];
    if !options.pushOnly {
      localChanges := PullDirection(local, remote, target);
    }
    var unmounts := CollectUnmounts(local, remote);
    if !options.pushOnly {
      var lc, rc := EmitUnmounts(local, remote, unmounts);
      PullThenUnmount(local, remote, target, localChanges, lc, unmounts);
      DistinctAppend(localChanges, lc);
      localChanges := localChanges + lc;
      remoteChanges := remoteChanges + rc;
    }
    var merged := set u | u in unmounts :: u.0;
    forall n | MergedBranch(local, remote, n) ensures n in merged {
      assert (n, RepointTo(local, n)) in unmounts;
    }
    if !options.pullOnly {
      var rc := PushChanges(local, remote, target, merged);
      if options.pushOnly || ExpectsOwnBase(local, remote, target) {
        ChildPushDisjoint(local, remote, target, remoteChanges, rc);
      }
      remoteChanges := remoteChanges + rc;
    }
    if options.pushOnly || options.pullOnly || ExpectsOwnBase(local, remote, target) {
      UniqueBranchesDistinct(remoteChanges);
    }
    plan := SyncPlan(localChanges, remoteChanges, []);
  }

  /** A child's retarget and a push change are never about the same branch when
      the target keeps every pull request based on its local parent: the child's
      pull request is open, so it gets no new one, and it is already based on its
      expected base, so it needs no base retarget. */
  lemma ChildPushDisjoint(local: LocalState, remote: RemoteState, target: TargetState,
                          child: seq<RemoteChange>, push: seq<RemoteChange>)
    requires ExpectsOwnBase(local, remote, target) || child == []
    requires forall c :: c in child ==> IsChildRetarget(local, remote, c)
    requires forall c :: c in push ==> IsPushChange(local, remote, target, c)
    requires UniqueBranches(child) && UniqueBranches(push)
    ensures UniqueBranches(child + push)
  {
    forall a, b | 0 <= a < b < |child + push| ensures (child + push)[a].branch != (child + push)[b].branch {
      if a < |child| && b >= |child| {
        var x, y := child[a], push[b - |child|];
        assert (child + push)[a] == x && (child + push)[b] == y;
        assert x in child && y in push;
      } else if a >= |child| {
        assert (child + push)[a] == push[a - |child|] && (child + push)[b] == push[b - |child|];
      } else {
        assert (child + push)[a] == child[a] && (child + push)[b] == child[b];
      }
    }
  }

  /** The pull direction: collect, sort topologically, and emit mounts (with
      their checkouts) followed by the stale pull-request numbers. */
  method PullDirection(local: LocalState, remote: RemoteState, target: TargetState) returns (lc: seq<LocalChange>)
    ensures PullChanges(local, remote, target, lc)
    ensures Distinct(lc)
  {
    var toMount, toCheckout, prUpdates := CollectPullChanges(local, target);
    var sorted := TopologicalSortBranches(toMount, local.trunk);
    forall a, b | 0 <= a < |sorted| && 0 <= b < |sorted| && sorted[b].0 == sorted[a].1 ensures b < a {
      TopoParentFirst(toMount, sorted, a, b);
    }
    forall i, k | 0 <= i < k < |sorted| ensures sorted[i].0 != sorted[k].0 {
      KahnDistinct(toMount, Firsts(sorted), i, k);
    }
    var mounts := EmitMounts(sorted, toCheckout);
    var updates := EmitPrUpdates(prUpdates);
    DistinctAppend(mounts, updates);
    MountedIffSorted(sorted, mounts);
    MountsWaitOnCycles(local, target, toMount, sorted, mounts);
    MountsJustified(local, remote, target, toMount, toCheckout, sorted, mounts);
    UpdatesJustified(local, remote, target, prUpdates, updates);
    PullChangesJoin(local, remote, target, toCheckout, sorted, mounts, updates);
    lc := mounts + updates;
  }

  /** The branches `EmitMounts` mounts are exactly the ones the sort returned. */
  lemma MountedIffSorted(sorted: seq<Mount>, mounts: seq<LocalChange>)
    requires forall c :: c in mounts && c.MountBranch? ==> (c.name, c.parent) in sorted
    requires forall j :: 0 <= j < |sorted| ==> MountBranch(sorted[j].0, sorted[j].1) in mounts
    ensures forall n :: IsMounted(mounts, n) <==> n in Firsts(sorted)
  {
    var out := Firsts(sorted);
    forall n | IsMounted(mounts, n) ensures n in out {
      var c :| c in mounts && c.MountBranch? && c.name == n;
      var i :| 0 <= i < |sorted| && sorted[i] == (c.name, c.parent);
      assert out[i] == n;
    }
    forall n | n in out ensures IsMounted(mounts, n) {
      var i :| 0 <= i < |out| && out[i] == n;
      assert MountBranch(sorted[i].0, sorted[i].1) in mounts;
    }
  }

  /** Why the missing mounts are missing: Kahn's algorithm leaves out only
      branches that wait on a parent it also left out. */
  lemma MountsWaitOnCycles(local: LocalState, target: TargetState, toMount: seq<Mount>, sorted: seq<Mount>,
                           mounts: seq<LocalChange>)
    requires forall j :: 0 <= j < |toMount| ==> WantsMount(local, target, toMount[j].0, toMount[j].1)
    requires forall n, p :: WantsMount(local, target, n, p) ==> (n, p) in toMount
    requires KahnOrder(toMount, Firsts(sorted))
    requires forall n :: IsMounted(mounts, n) <==> n in Firsts(sorted)
    ensures MountsWait(local, target, mounts)
  {
    var out := Firsts(sorted);
    var names := Names(toMount);
    forall n, p | WantsMount(local, target, n, p) && !IsMounted(mounts, n)
      ensures !IsMounted(mounts, p) && NeedsMount(local, target, p)
    {
      var jn :| 0 <= jn < |toMount| && toMount[jn] == (n, p);
      PendingWitness(toMount, n, names, Done(out));
      var j :| 0 <= j < |toMount| && toMount[j].0 == n && toMount[j].1 in names && toMount[j].1 !in Done(out);
      assert toMount[j].1 == p;
      var j' :| 0 <= j' < |toMount| && toMount[j'].0 == p;
      assert WantsMount(local, target, p, toMount[j'].1);
    }
  }

  /** Appending changes that neither check out nor mount keeps the layout of the
      mounts and checkouts, and what is mounted. */
  lemma AppendLayout(a: seq<LocalChange>, b: seq<LocalChange>)
    requires forall c :: c in b ==> !c.MountBranch? && !c.CheckoutBranch?
    requires CheckoutThenMount(a) && MountsOrdered(a)
    ensures CheckoutThenMount(a + b) && MountsOrdered(a + b)
    ensures forall n :: IsMounted(a + b, n) <==> IsMounted(a, n)
  {
    var lc := a + b;
    forall i | 0 <= i < |lc| && lc[i].CheckoutBranch?
      ensures i + 1 < |lc| && lc[i + 1].MountBranch? && lc[i + 1].name == lc[i].name
    {
    }
    forall i, k | 0 <= i < |lc| && 0 <= k < |lc| && lc[i].MountBranch? && lc[k].MountBranch?
      && lc[k].name == lc[i].parent
      ensures k < i
    {
    }
    forall n | IsMounted(lc, n) ensures IsMounted(a, n) {
      var c :| c in lc && c.MountBranch? && c.name == n;
    }
    forall n | IsMounted(a, n) ensures IsMounted(lc, n) {
      var c :| c in a && c.MountBranch? && c.name == n;
      assert c in lc;
    }
  }

  /** Every emitted mount and checkout is wanted. */
  lemma MountsJustified(local: LocalState, remote: RemoteState, target: TargetState, toMount: seq<Mount>,
                        toCheckout: set<string>, sorted: seq<Mount>, mounts: seq<LocalChange>)
    requires forall j :: 0 <= j < |toMount| ==> WantsMount(local, target, toMount[j].0, toMount[j].1)
    requires forall n :: n in toCheckout <==> WantsCheckout(local, target, n)
    requires forall i :: 0 <= i < |sorted| ==>
      (sorted[i].0 in ParentMap(toMount) && sorted[i].1 == ParentMap(toMount)[sorted[i].0])
    requires forall c :: c in mounts ==>
      (c.MountBranch? && (c.name, c.parent) in sorted) || (c.CheckoutBranch? && c.name in toCheckout)
    ensures forall c :: c in mounts ==> LocalJustified(local, remote, target, c) && !c.UnmountBranch?
  {
    forall i | 0 <= i < |sorted| ensures WantsMount(local, target, sorted[i].0, sorted[i].1) {
      ParentMapPair(toMount, sorted[i].0);
    }
  }

  /** Every emitted number update is wanted, and every wanted one is emitted. */
  lemma UpdatesJustified(local: LocalState, remote: RemoteState, target: TargetState,
                         prUpdates: seq<(string, nat)>, updates: seq<LocalChange>)
    requires forall n, k: nat :: (n, k) in prUpdates <==> WantsPrUpdate(local, target, n, k)
    requires |updates| == |prUpdates|
    requires forall i :: 0 <= i < |updates| ==> updates[i] == UpdatePrNumber(prUpdates[i].0, prUpdates[i].1)
    ensures forall c :: c in updates ==> LocalJustified(local, remote, target, c) && c.UpdatePrNumber?
    ensures forall n, k: nat :: WantsPrUpdate(local, target, n, k) ==> UpdatePrNumber(n, k) in updates
  {
    forall c | c in updates ensures LocalJustified(local, remote, target, c) && c.UpdatePrNumber? {
      var i :| 0 <= i < |updates| && updates[i] == c;
      assert prUpdates[i] in prUpdates;
    }
    forall n, k: nat | WantsPrUpdate(local, target, n, k) ensures UpdatePrNumber(n, k) in updates {
      var i :| 0 <= i < |prUpdates| && prUpdates[i] == (n, k);
      assert updates[i] == UpdatePrNumber(n, k);
    }
  }

  /** Putting the mounts and the number updates together. */
  lemma PullChangesJoin(local: LocalState, remote: RemoteState, target: TargetState, toCheckout: set<string>,
                        sorted: seq<Mount>, mounts: seq<LocalChange>, updates: seq<LocalChange>)
    requires forall n :: n in toCheckout <==> WantsCheckout(local, target, n)
    requires forall n :: IsMounted(mounts, n) <==> n in Firsts(sorted)
    requires forall j :: 0 <= j < |sorted| && sorted[j].0 in toCheckout ==> CheckoutBranch(sorted[j].0) in mounts
    requires CheckoutThenMount(mounts) && MountsOrdered(mounts) && MountsWait(local, target, mounts)
    requires forall c :: c in mounts ==> LocalJustified(local, remote, target, c) && !c.UnmountBranch?
    requires forall c :: c in updates ==> LocalJustified(local, remote, target, c) && c.UpdatePrNumber?
    requires forall n, k: nat :: WantsPrUpdate(local, target, n, k) ==> UpdatePrNumber(n, k) in updates
    ensures PullChanges(local, remote, target, mounts + updates)
  {
    var lc := mounts + updates;
    AppendLayout(mounts, updates);
    forall n | WantsCheckout(local, target, n) && IsMounted(lc, n) ensures CheckoutBranch(n) in lc {
      var i :| 0 <= i < |Firsts(sorted)| && Firsts(sorted)[i] == n;
      assert CheckoutBranch(sorted[i].0) in mounts;
    }
  }

  /** Appending the unmounts to the pull direction's changes. */
  lemma PullThenUnmount(local: LocalState, remote: RemoteState, target: TargetState, pull: seq<LocalChange>,
                        lc: seq<LocalChange>, unmounts: seq<(string, string)>)
    requires pull == [] || PullChanges(local, remote, target, pull)
    requires forall u :: u in unmounts <==> MergedBranch(local, remote, u.0) && u.1 == RepointTo(local, u.0)
    requires |lc| == |unmounts|
    requires forall i :: 0 <= i < |lc| ==> lc[i] == UnmountBranch(unmounts[i].0, unmounts[i].1)
    ensures forall c :: c in pull + lc ==> LocalJustified(local, remote, target, c)
    ensures CheckoutThenMount(pull + lc) && MountsOrdered(pull + lc)
    ensures forall n :: IsMounted(pull + lc, n) <==> IsMounted(pull, n)
    ensures forall n :: MergedBranch(local, remote, n) ==> UnmountBranch(n, RepointTo(local, n)) in pull + lc
  {
    forall c | c in lc ensures LocalJustified(local, remote, target, c) && c.UnmountBranch? {
      var i :| 0 <= i < |lc| && lc[i] == c;
      assert unmounts[i] in unmounts;
    }
    AppendLayout(pull, lc);
    forall n | MergedBranch(local, remote, n) ensures UnmountBranch(n, RepointTo(local, n)) in pull + lc {
      assert (n, RepointTo(local, n)) in unmounts;
      var i :| 0 <= i < |unmounts| && unmounts[i] == (n, RepointTo(local, n));
      assert lc[i] in pull + lc;
    }
  }

  /** Only branches caught in a cycle of wanted mounts stay unmounted: given a
      ranking of the wanted mounts under which every parent that itself wants a
      mount ranks lower, every wanted mount is placed. */
  lemma {:induction false} MountsComplete(local: LocalState, target: TargetState, lc: seq<LocalChange>,
                                          rank: map<string, nat>)
    requires MountsWait(local, target, lc)
    requires forall n :: NeedsMount(local, target, n) ==> n in rank
    requires forall n, p :: WantsMount(local, target, n, p) && NeedsMount(local, target, p) ==> rank[p] < rank[n]
    ensures forall n, p :: WantsMount(local, target, n, p) ==> IsMounted(lc, n)
  {
    forall n, p | WantsMount(local, target, n, p) ensures IsMounted(lc, n) {
      MountedBelow(local, target, lc, rank, n, p);
    }
  }

  lemma {:induction false} MountedBelow(local: LocalState, target: TargetState, lc: seq<LocalChange>,
                                        rank: map<string, nat>, n: string, p: string)
    requires MountsWait(local, target, lc)
    requires forall n :: NeedsMount(local, target, n) ==> n in rank
    requires forall n, p :: WantsMount(local, target, n, p) && NeedsMount(local, target, p) ==> rank[p] < rank[n]
    requires WantsMount(local, target, n, p)
    ensures IsMounted(lc, n)
    decreases rank[n]
  {
    if !IsMounted(lc, n) {
      MountedBelow(local, target, lc, rank, p, target.branches[p].parent.value);
    }
  }
}
