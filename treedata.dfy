/** The render-tree computation of `src/render/tree_data.rs`: the stack tree is
    flattened in pre-order into the list the CLI and the TUI draw, siblings
    ordered current subtree first, then subtrees with a PR by a display author,
    then by name. What git reports about each branch (its status against the
    parent, diff statistics, the working-tree status) is not part of this model;
    whether the branch exists locally is supplied as a set. */
module TreeData {
  import opened Wrappers
  import opened Strings
  import opened Github
  import opened StackState

  /** The working-tree counters shown for the current branch. */
  datatype LocalStatus = LocalStatus(staged: nat, unstaged: nat, untracked: nat) {
    /** Nothing staged, nothing unstaged, nothing untracked. */
    predicate IsClean() {
      staged == 0 && unstaged == 0 && untracked == 0
    }
  }

  /** The clean status is exactly the all-zero one. */
  lemma IsCleanIffZero(s: LocalStatus)
    ensures s.IsClean() <==> s == LocalStatus(0, 0, 0)
  {
  }

  datatype PrRenderInfo = PrRenderInfo(number: nat, state: PrDisplayState, author: string)

  /** One line of the rendered tree. */
  datatype RenderableBranch = RenderableBranch(
    name: string,
    depth: nat,
    isCurrent: bool,
    isDimmed: bool,
    isRemoteOnly: bool,
    prInfo: Option<PrRenderInfo>,
    notePreview: Option<string>,
    index: nat)

  datatype RenderableTree = RenderableTree(branches: seq<RenderableBranch>, currentBranchIndex: Option<nat>)

  /** What every step of the flattening consults: the checked-out branch, the
      cached PRs by head branch (absent when PRs were not fetched), the authors
      to highlight, and the branches that exist locally. */
  datatype RenderContext = RenderContext(
    current: string,
    prCache: Option<map<string, PullRequest>>,
    displayAuthors: seq<string>,
    localBranches: set<string>)

  /** The cached PR for branch `name`, if PRs were fetched and one is cached. */
  function CachedPr(ctx: RenderContext, name: string): (r: Option<PullRequest>)
    ensures r.Some? <==> ctx.prCache.Some? && name in ctx.prCache.value
    ensures r.Some? ==> r.value == ctx.prCache.value[name]
  {
    if ctx.prCache.Some? && name in ctx.prCache.value then Some(ctx.prCache.value[name]) else None
  }

  /** Branch `name` has a cached PR written by one of the display authors. */
  predicate HasAuthorPr(ctx: RenderContext, name: string) {
    CachedPr(ctx, name).Some? && CachedPr(ctx, name).value.user.login in ctx.displayAuthors
  }

  // ---------------------------------------------------------------------------
  // subtree_contains

  /** `subtree_contains`: whether the subtree holds the target branch, and whether
      it holds a branch with a PR by a display author. */
  function SubtreeContains(b: Branch, ctx: RenderContext): (r: (bool, bool))
    ensures r.0 <==> Mentions(b, ctx.current)
    ensures r.1 <==> exists s :: s in Subtrees(b) && HasAuthorPr(ctx, s.name)
    ensures ctx.prCache.None? ==> !r.1
    decreases b, 1
  {
    var (t, a) := SubtreeContainsIn(b.branches, ctx);
    assert Subtrees(b) == [b] + SubtreesOf(b.branches);
    (b.name == ctx.current || t, HasAuthorPr(ctx, b.name) || a)
  }

  /** The fold over the children: the componentwise `or` of their answers. */
  function SubtreeContainsIn(cs: seq<Branch>, ctx: RenderContext): (r: (bool, bool))
    ensures r.0 <==> exists s :: s in SubtreesOf(cs) && s.name == ctx.current
    ensures r.1 <==> exists s :: s in SubtreesOf(cs) && HasAuthorPr(ctx, s.name)
    decreases cs, 0
  {
    if cs == [] then (false, false)
    else
      var (t1, a1) := SubtreeContains(cs[0], ctx);
      var (t2, a2) := SubtreeContainsIn(cs[1..], ctx);
      assert SubtreesOf(cs) == Subtrees(cs[0]) + SubtreesOf(cs[1..]);
      (t1 || t2, a1 || a2)
  }

  // ---------------------------------------------------------------------------
  // Ordering of siblings

  /** The sort key of each sibling, by name; a later sibling with the same name
      replaces an earlier one, as when the key table is collected. */
  function SubtreeCache(cs: seq<Branch>, ctx: RenderContext): (m: map<string, (bool, bool)>)
  {
    if cs == [] then map[]
    else
      var last := cs[|cs| - 1];
      SubtreeCache(cs[..|cs| - 1], ctx)[last.name := SubtreeContains(last, ctx)]
  }

  /** Every sibling has a key, every key is what `SubtreeContains` says of a sibling
      with that name, and a sibling whose name no other sibling has gets its own. */
  lemma {:induction false} SubtreeCacheKeys(cs: seq<Branch>, ctx: RenderContext)
    ensures var m := SubtreeCache(cs, ctx);
      && (forall c :: c in cs ==> c.name in m)
      && (forall k :: k in m ==> exists c :: c in cs && c.name == k && m[k] == SubtreeContains(c, ctx))
      && (forall c :: c in cs && (forall d :: d in cs && d.name == c.name ==> d == c) ==>
            m[c.name] == SubtreeContains(c, ctx))
  {
    if cs != [] {
      var init := cs[..|cs| - 1];
      var last := cs[|cs| - 1];
      SubtreeCacheKeys(init, ctx);
      assert cs == init + [last];
      var m0 := SubtreeCache(init, ctx);
      var m := SubtreeCache(cs, ctx);
      assert m == m0[last.name := SubtreeContains(last, ctx)];
      forall k | k in m ensures exists c :: c in cs && c.name == k && m[k] == SubtreeContains(c, ctx) {
        if k != last.name {
          assert k in m0 && m[k] == m0[k];
          var c :| c in init && c.name == k && m0[k] == SubtreeContains(c, ctx);
          assert c in cs;
        } else {
          assert last in cs;
        }
      }
    }
  }

  /** The key the comparator reads for a sibling: its table entry, `(false, false)`
      when absent. */
  function KeyOf(cache: map<string, (bool, bool)>, name: string): (bool, bool) {
    if name in cache then cache[name] else (false, false)
  }

  /** The comparator of the children sort, as a strict order: a subtree with the
      current branch first, then one with a display author's PR, then by name. */
  predicate Before(cache: map<string, (bool, bool)>, a: Branch, b: Branch) {
    var (ac, aa) := KeyOf(cache, a.name);
    var (bc, ba) := KeyOf(cache, b.name);
    if ac != bc then ac
    else if aa != ba then aa
    else Less(a.name, b.name)
  }

  lemma BeforeAsymmetric(cache: map<string, (bool, bool)>, a: Branch, b: Branch)
    requires Before(cache, a, b)
    ensures !Before(cache, b, a)
  {
    if KeyOf(cache, a.name) == KeyOf(cache, b.name) {
      LessAsymmetric(a.name, b.name);
    }
  }

  /** Neither before the other means the same key and the same name. */
  lemma BeforeTotal(cache: map<string, (bool, bool)>, a: Branch, b: Branch)
    requires !Before(cache, a, b) && !Before(cache, b, a)
    ensures a.name == b.name
  {
    if a.name != b.name {
      LessTotal(a.name, b.name);
    }
  }

  /** "Not before" is transitive: the comparator is a total preorder. */
  lemma NotBeforeTransitive(cache: map<string, (bool, bool)>, a: Branch, b: Branch, c: Branch)
    requires !Before(cache, b, a) && !Before(cache, c, b)
    ensures !Before(cache, c, a)
  {
    if KeyOf(cache, a.name) == KeyOf(cache, b.name) == KeyOf(cache, c.name) && a.name != b.name {
      LessTotal(a.name, b.name);
      if Less(c.name, a.name) {
        LessTransitive(c.name, a.name, b.name);
      }
    }
  }

  predicate SortedBy(cache: map<string, (bool, bool)>, s: seq<Branch>) {
    forall i, j :: 0 <= i < j < |s| ==> !Before(cache, s[j], s[i])
  }

  /** `x` placed before the first element that does not come strictly before it. */
  function Insert(cache: map<string, (bool, bool)>, x: Branch, s: seq<Branch>): (r: seq<Branch>)
    ensures |r| == |s| + 1
  {
    if s == [] || !Before(cache, s[0], x) then [x] + s
    else [s[0]] + Insert(cache, x, s[1..])
  }

  lemma {:induction false} InsertPermutes(cache: map<string, (bool, bool)>, x: Branch, s: seq<Branch>)
    ensures multiset(Insert(cache, x, s)) == multiset(s) + multiset{x}
  {
    if s != [] && Before(cache, s[0], x) {
      InsertPermutes(cache, x, s[1..]);
      assert s == [s[0]] + s[1..];
    }
  }

  lemma {:induction false} InsertSorted(cache: map<string, (bool, bool)>, x: Branch, s: seq<Branch>)
    requires SortedBy(cache, s)
    ensures SortedBy(cache, Insert(cache, x, s))
  {
    var r := Insert(cache, x, s);
    if s == [] || !Before(cache, s[0], x) {
      forall j | 1 <= j < |r| ensures !Before(cache, r[j], r[0]) {
        if j > 1 { NotBeforeTransitive(cache, x, s[0], s[j - 1]); }
      }
    } else {
      InsertSorted(cache, x, s[1..]);
      var t := Insert(cache, x, s[1..]);
      InsertPermutes(cache, x, s[1..]);
      BeforeAsymmetric(cache, s[0], x);
      forall j | 1 <= j < |r| ensures !Before(cache, r[j], r[0]) {
        assert r[j] in multiset(t);
        assert r[j] == x || r[j] in s[1..];
      }
    }
  }

  /** A stable insertion sort by `Before`: it sorts the slice `sort_by` sorts. */
  function SortBy(cache: map<string, (bool, bool)>, cs: seq<Branch>): (r: seq<Branch>)
    ensures |r| == |cs|
  {
    if cs == [] then []
    else Insert(cache, cs[0], SortBy(cache, cs[1..]))
  }

  lemma {:induction false} SortByPermutes(cache: map<string, (bool, bool)>, cs: seq<Branch>)
    ensures multiset(SortBy(cache, cs)) == multiset(cs)
  {
    if cs != [] {
      var rest := SortBy(cache, cs[1..]);
      SortByPermutes(cache, cs[1..]);
      InsertPermutes(cache, cs[0], rest);
      assert cs == [cs[0]] + cs[1..];
      assert multiset(cs) == multiset{cs[0]} + multiset(cs[1..]);
    }
  }

  /** The sort leaves the children ordered by the comparator. */
  lemma {:induction false} SortBySorted(cache: map<string, (bool, bool)>, cs: seq<Branch>)
    ensures SortedBy(cache, SortBy(cache, cs))
  {
    if cs != [] {
      SortBySorted(cache, cs[1..]);
      InsertSorted(cache, cs[0], SortBy(cache, cs[1..]));
    }
  }

  /** The elements of `s` named `n`, in their order in `s`. */
  function Named(s: seq<Branch>, n: string): seq<Branch> {
    if s == [] then [] else (if s[0].name == n then [s[0]] else []) + Named(s[1..], n)
  }

  lemma NamedCons(x: Branch, s: seq<Branch>, n: string)
    ensures Named([x] + s, n) == (if x.name == n then [x] else []) + Named(s, n)
  {
    assert ([x] + s)[1..] == s;
  }

  /** `Insert` puts `x` ahead of every element with its name. */
  lemma {:induction false} InsertNamed(cache: map<string, (bool, bool)>, x: Branch, s: seq<Branch>, n: string)
    ensures Named(Insert(cache, x, s), n) == (if x.name == n then [x] else []) + Named(s, n)
  {
    if s == [] || !Before(cache, s[0], x) {
      NamedCons(x, s, n);
    } else {
      LessIrreflexive(x.name);
      assert s[0].name != x.name;
      InsertNamed(cache, x, s[1..], n);
      NamedCons(s[0], Insert(cache, x, s[1..]), n);
      NamedCons(s[0], s[1..], n);
      assert [s[0]] + s[1..] == s;
    }
  }

  /** The sort is stable: siblings that tie under the comparator are the ones
      sharing a name (`BeforeTotal`), and those keep their relative order. */
  lemma {:induction false} SortByStable(cache: map<string, (bool, bool)>, cs: seq<Branch>, n: string)
    ensures Named(SortBy(cache, cs), n) == Named(cs, n)
  {
    if cs != [] {
      SortByStable(cache, cs[1..], n);
      InsertNamed(cache, cs[0], SortBy(cache, cs[1..]), n);
    }
  }

  /** The children of a node in the order they are drawn. */
  function SortChildren(cs: seq<Branch>, ctx: RenderContext): (r: seq<Branch>)
    ensures |r| == |cs|
    ensures forall c :: c in r ==> c in cs
  {
    var r := SortBy(SubtreeCache(cs, ctx), cs);
    SortByPermutes(SubtreeCache(cs, ctx), cs);
    assert forall c :: c in r ==> c in multiset(cs);
    r
  }

  /** The drawing order: a permutation of the children in which no sibling comes
      after one it should precede; among siblings with distinct names the key is
      exactly what `SubtreeContains` says of each. */
  lemma SortChildrenOrder(cs: seq<Branch>, ctx: RenderContext)
    ensures var r := SortChildren(cs, ctx);
      multiset(r) == multiset(cs) && SortedBy(SubtreeCache(cs, ctx), r)
    ensures forall c :: c in cs && (forall d :: d in cs && d.name == c.name ==> d == c) ==>
      KeyOf(SubtreeCache(cs, ctx), c.name) == SubtreeContains(c, ctx)
  {
    SortBySorted(SubtreeCache(cs, ctx), cs);
    SortByPermutes(SubtreeCache(cs, ctx), cs);
    SubtreeCacheKeys(cs, ctx);
  }

  // ---------------------------------------------------------------------------
  // One line per node

  /** `is_dimmed`: never without display authors; otherwise exactly when the branch
      has a cached PR by someone else. */
  function IsDimmed(ctx: RenderContext, name: string): (r: bool)
    ensures |ctx.displayAuthors| == 0 ==> !r
    ensures |ctx.displayAuthors| > 0 ==>
      (r <==> CachedPr(ctx, name).Some? && CachedPr(ctx, name).value.user.login !in ctx.displayAuthors)
  {
    if |ctx.displayAuthors| == 0 then false
    else match CachedPr(ctx, name)
      case None => false
      case Some(pr) => pr.user.login !in ctx.displayAuthors
  }

  /** The PR line of a branch: number, display state and author of its cached PR. */
  function PrInfo(ctx: RenderContext, name: string): (r: Option<PrRenderInfo>)
    ensures r.Some? <==> CachedPr(ctx, name).Some?
    ensures r.Some? ==> var pr := CachedPr(ctx, name).value;
      r.value.number == pr.number && r.value.author == pr.user.login
      && r.value.state == DisplayState(pr)
      && (r.value.state == PrDisplayState.Merged <==> IsMerged(pr))
      && (r.value.state == PrDisplayState.Closed <==> !IsMerged(pr) && pr.state.Closed?)
      && (r.value.state == PrDisplayState.Draft <==> !IsMerged(pr) && pr.state.Open? && pr.draft)
      && (r.value.state == PrDisplayState.Open <==> !IsMerged(pr) && pr.state.Open? && !pr.draft)
  {
    match CachedPr(ctx, name)
    case None => None
    case Some(pr) => Some(PrRenderInfo(pr.number, DisplayState(pr), pr.user.login))
  }

  /** The first line of a note; `None` when there is no note or it is empty. */
  function NotePreview(note: Option<string>): (r: Option<string>)
    ensures note.None? ==> r.None?
    ensures note.Some? ==> (r.None? <==> note.value == [])
    ensures r.Some? ==> StartsWith(note.value, r.value) && '\n' !in r.value
    ensures r.Some? ==> LineEndsAt(note.value, r.value)
  {
    if note.None? then None else FirstLine(note.value)
  }

  /** The line drawn for node `b` at `depth`, `index` lines from the top. */
  function Entry(b: Branch, depth: nat, index: nat, ctx: RenderContext): (e: RenderableBranch)
    ensures e.name == b.name && e.depth == depth && e.index == index
    ensures e.isCurrent <==> b.name == ctx.current
    ensures e.isRemoteOnly <==> b.name !in ctx.localBranches
    ensures e.isDimmed == IsDimmed(ctx, b.name)
    ensures e.prInfo == PrInfo(ctx, b.name) && e.notePreview == NotePreview(b.note)
  {
    RenderableBranch(
      b.name, depth, b.name == ctx.current, IsDimmed(ctx, b.name), b.name !in ctx.localBranches,
      PrInfo(ctx, b.name), NotePreview(b.note), index)
  }

  // ---------------------------------------------------------------------------
  // flatten_tree

  /** No line is more than one level deeper than the line before it. */
  predicate Outline(f: seq<RenderableBranch>) {
    forall i, j :: 0 <= i < |f| && j == i + 1 < |f| ==> f[j].depth <= f[i].depth + 1
  }

  /** Every line is at `depth` or deeper. */
  predicate AtLeast(f: seq<RenderableBranch>, depth: nat) {
    forall i :: 0 <= i < |f| ==> f[i].depth >= depth
  }

  /** Each line's index is `start` plus its position. */
  predicate Indexed(f: seq<RenderableBranch>, start: nat) {
    forall i :: 0 <= i < |f| ==> f[i].index == start + i
  }

  lemma OutlineAppend(a: seq<RenderableBranch>, b: seq<RenderableBranch>)
    requires Outline(a) && Outline(b)
    requires a != [] && b != [] ==> b[0].depth <= a[|a| - 1].depth + 1
    ensures Outline(a + b)
  {
    var f := a + b;
    forall i, j | 0 <= i < |f| && j == i + 1 < |f| ensures f[j].depth <= f[i].depth + 1 {
      if j < |a| {
        assert f[i] == a[i] && f[j] == a[j];
      } else if i >= |a| {
        assert f[i] == b[i - |a|] && f[j] == b[j - |a|];
      }
    }
  }

  lemma AtLeastWeaken(f: seq<RenderableBranch>, depth: nat)
    requires f != [] && f[0].depth >= depth && AtLeast(f[1..], depth)
    ensures AtLeast(f, depth)
  {
    forall i | 1 <= i < |f| ensures f[i].depth >= depth {
      assert f[i] == f[1..][i - 1];
    }
  }

  lemma AtLeastAppend(a: seq<RenderableBranch>, b: seq<RenderableBranch>, depth: nat)
    requires AtLeast(a, depth) && AtLeast(b, depth)
    ensures AtLeast(a + b, depth)
  {
  }

  lemma IndexedAppend(a: seq<RenderableBranch>, b: seq<RenderableBranch>, start: nat)
    requires Indexed(a, start) && Indexed(b, start + |a|)
    ensures Indexed(a + b, start)
  {
  }

  /** The tree as it is drawn: the same nodes, with the children of every node in
      the order `SortChildren` puts them. */
  function Ordered(b: Branch, ctx: RenderContext): (o: Branch)
    ensures o.name == b.name && o.note == b.note && |o.branches| == |b.branches|
    decreases b, 1
  {
    Branch(b.name, OrderedChildren(b, ctx), b.prNumber, b.note)
  }

  /** The children of `b` sorted, each drawn in turn. */
  function OrderedChildren(b: Branch, ctx: RenderContext): (os: seq<Branch>)
    ensures |os| == |b.branches|
    decreases b, 0
  {
    var kids := SortChildren(b.branches, ctx);
    seq(|kids|, i requires 0 <= i < |kids| => assert kids[i] in kids; Ordered(kids[i], ctx))
  }

  /** The `i`-th child of the drawn node is the drawn `i`-th sorted child. */
  lemma OrderedChild(b: Branch, ctx: RenderContext, i: nat)
    requires i < |b.branches|
    ensures var kids := SortChildren(b.branches, ctx);
      i < |kids| && Ordered(b, ctx).branches[i] == Ordered(kids[i], ctx)
  {
  }

  /** The drawn node is its own line followed by the lines of its drawn children,
      which are its sorted children drawn one by one. */
  lemma FlattenOrdered(b: Branch, depth: nat, index: nat, ctx: RenderContext)
    ensures var kids := SortChildren(b.branches, ctx); var o := Ordered(b, ctx);
      && |kids| == |o.branches|
      && (forall i :: 0 <= i < |kids| ==> o.branches[i] == Ordered(kids[i], ctx))
      && Flatten(o, depth, index, ctx)
         == [Entry(b, depth, index, ctx)] + FlattenChildren(o.branches, |o.branches|, depth + 1, index + 1, ctx)
  {
    var kids := SortChildren(b.branches, ctx);
    forall i | 0 <= i < |kids| ensures Ordered(b, ctx).branches[i] == Ordered(kids[i], ctx) {
      OrderedChild(b, ctx, i);
    }
  }

  /** Sorting moves nodes around and neither adds nor drops any. */
  lemma {:induction false} OrderedCount(b: Branch, ctx: RenderContext, n: string)
    ensures TreeCount(Ordered(b, ctx), n) == TreeCount(b, n)
    decreases b
  {
    var kids := SortChildren(b.branches, ctx);
    var o := Ordered(b, ctx);
    forall i | 0 <= i < |kids| ensures TreeCount(o.branches[i], n) == TreeCount(kids[i], n) {
      assert kids[i] in kids;
      OrderedChild(b, ctx, i);
      OrderedCount(kids[i], ctx, n);
    }
    ForestCountPointwise(o.branches, kids, n);
    ForestCountSort(SubtreeCache(b.branches, ctx), b.branches, n);
  }

  /** The lines `flatten_tree` appends for the (drawn) subtree `t` when `start`
      lines are already there: `t` itself, then the subtrees of its children. */
  function Flatten(t: Branch, depth: nat, start: nat, ctx: RenderContext): (f: seq<RenderableBranch>)
    ensures |f| >= 1 && f[0] == Entry(t, depth, start, ctx)
    decreases t, 1
  {
    [Entry(t, depth, start, ctx)] + FlattenChildren(t.branches, |t.branches|, depth + 1, start + 1, ctx)
  }

  /** The lines of the subtrees of the first `n` of `cs`, one after the other. */
  function FlattenChildren(cs: seq<Branch>, n: nat, depth: nat, start: nat, ctx: RenderContext)
    : (f: seq<RenderableBranch>)
    requires n <= |cs|
    ensures f == [] <==> n == 0
    decreases cs, 0, n
  {
    if n == 0 then []
    else
      var init := FlattenChildren(cs, n - 1, depth, start, ctx);
      init + Flatten(cs[n - 1], depth, start + |init|, ctx)
  }

  /** The flattened subtree is a pre-order outline: indices count up from
      `start`, `t` is at `depth`, everything below it is deeper, and no line is
      more than one level deeper than the line before it. */
  lemma {:induction false} FlattenShape(t: Branch, depth: nat, start: nat, ctx: RenderContext)
    ensures var f := Flatten(t, depth, start, ctx);
      Indexed(f, start) && f[0].depth == depth && AtLeast(f[1..], depth + 1) && AtLeast(f, depth) && Outline(f)
    decreases t, 1
  {
    var e := Entry(t, depth, start, ctx);
    var g := FlattenChildren(t.branches, |t.branches|, depth + 1, start + 1, ctx);
    FlattenChildrenShape(t.branches, |t.branches|, depth + 1, start + 1, ctx);
    IndexedAppend([e], g, start);
    OutlineAppend([e], g);
    assert ([e] + g)[1..] == g;
    AtLeastWeaken([e] + g, depth);
  }

  lemma {:induction false} FlattenChildrenShape(cs: seq<Branch>, n: nat, depth: nat, start: nat, ctx: RenderContext)
    requires n <= |cs|
    ensures var f := FlattenChildren(cs, n, depth, start, ctx);
      Indexed(f, start) && AtLeast(f, depth) && (f != [] ==> f[0].depth == depth) && Outline(f)
    decreases cs, 0, n
  {
    if n > 0 {
      var init := FlattenChildren(cs, n - 1, depth, start, ctx);
      var h := Flatten(cs[n - 1], depth, start + |init|, ctx);
      FlattenChildrenShape(cs, n - 1, depth, start, ctx);
      FlattenShape(cs[n - 1], depth, start + |init|, ctx);
      ShapeAppend(init, h, depth, start);
    }
  }

  /** The subtrees of siblings at `depth`, one after the other, keep the shape. */
  lemma ShapeAppend(init: seq<RenderableBranch>, h: seq<RenderableBranch>, depth: nat, start: nat)
    requires Indexed(init, start) && AtLeast(init, depth) && (init != [] ==> init[0].depth == depth) && Outline(init)
    requires Indexed(h, start + |init|) && h != [] && h[0].depth == depth && AtLeast(h, depth) && Outline(h)
    ensures var f := init + h;
      Indexed(f, start) && AtLeast(f, depth) && f[0].depth == depth && Outline(f)
  {
    IndexedAppend(init, h, start);
    AtLeastAppend(init, h, depth);
    if init != [] {
      assert init[|init| - 1].depth >= depth;
      assert (init + h)[0] == init[0];
    }
    OutlineAppend(init, h);
  }

  /** How many nodes of the tree are named `n`. */
  function TreeCount(t: Branch, n: string): nat
    decreases t, 1
  {
    (if t.name == n then 1 else 0) + ForestCount(t.branches, n)
  }

  function ForestCount(cs: seq<Branch>, n: string): nat
    decreases cs, 0
  {
    if cs == [] then 0 else TreeCount(cs[0], n) + ForestCount(cs[1..], n)
  }

  /** How many lines are named `n`. */
  function LineCount(f: seq<RenderableBranch>, n: string): nat {
    if f == [] then 0 else (if f[0].name == n then 1 else 0) + LineCount(f[1..], n)
  }

  lemma {:induction false} LineCountAppend(a: seq<RenderableBranch>, b: seq<RenderableBranch>, n: string)
    ensures LineCount(a + b, n) == LineCount(a, n) + LineCount(b, n)
  {
    if a == [] {
      assert a + b == b;
    } else {
      assert (a + b)[0] == a[0];
      assert (a + b)[1..] == a[1..] + b;
      LineCountAppend(a[1..], b, n);
    }
  }

  /** A name is counted exactly when some line carries it. */
  lemma {:induction false} LineCountPositive(f: seq<RenderableBranch>, n: string)
    ensures LineCount(f, n) > 0 <==> exists i :: 0 <= i < |f| && f[i].name == n
  {
    if f != [] {
      LineCountPositive(f[1..], n);
      if LineCount(f[1..], n) > 0 {
        var i :| 0 <= i < |f[1..]| && f[1..][i].name == n;
        assert f[i + 1].name == n;
      }
      if exists i :: 0 <= i < |f| && f[i].name == n {
        var i :| 0 <= i < |f| && f[i].name == n;
        if i > 0 { assert f[1..][i - 1].name == n; }
      }
    }
  }

  lemma {:induction false} ForestCountAppend(a: seq<Branch>, b: seq<Branch>, n: string)
    ensures ForestCount(a + b, n) == ForestCount(a, n) + ForestCount(b, n)
  {
    if a == [] {
      assert a + b == b;
    } else {
      assert (a + b)[0] == a[0];
      assert (a + b)[1..] == a[1..] + b;
      ForestCountAppend(a[1..], b, n);
    }
  }

  lemma ForestCountLast(cs: seq<Branch>, n: string)
    requires cs != []
    ensures ForestCount(cs, n) == ForestCount(cs[..|cs| - 1], n) + TreeCount(cs[|cs| - 1], n)
  {
    var init := cs[..|cs| - 1];
    var last := cs[|cs| - 1];
    assert cs == init + [last];
    ForestCountAppend(init, [last], n);
    assert ForestCount([last], n) == TreeCount(last, n) + ForestCount([], n);
  }

  /** The count of a forest does not depend on the order of its trees. */
  lemma {:induction false} ForestCountInsert(cache: map<string, (bool, bool)>, x: Branch, s: seq<Branch>, n: string)
    ensures ForestCount(Insert(cache, x, s), n) == TreeCount(x, n) + ForestCount(s, n)
  {
    if s == [] || !Before(cache, s[0], x) {
      assert ([x] + s)[1..] == s;
    } else {
      ForestCountInsert(cache, x, s[1..], n);
      var r := Insert(cache, x, s);
      assert r[0] == s[0] && r[1..] == Insert(cache, x, s[1..]);
    }
  }

  lemma {:induction false} ForestCountSort(cache: map<string, (bool, bool)>, cs: seq<Branch>, n: string)
    ensures ForestCount(SortBy(cache, cs), n) == ForestCount(cs, n)
  {
    if cs != [] {
      ForestCountSort(cache, cs[1..], n);
      ForestCountInsert(cache, cs[0], SortBy(cache, cs[1..]), n);
    }
  }

  lemma {:induction false} ForestCountPointwise(a: seq<Branch>, b: seq<Branch>, n: string)
    requires |a| == |b| && forall i :: 0 <= i < |a| ==> TreeCount(a[i], n) == TreeCount(b[i], n)
    ensures ForestCount(a, n) == ForestCount(b, n)
  {
    if a != [] {
      assert TreeCount(a[0], n) == TreeCount(b[0], n);
      forall i | 0 <= i < |a| - 1 ensures TreeCount(a[1..][i], n) == TreeCount(b[1..][i], n) {
        assert a[1..][i] == a[i + 1] && b[1..][i] == b[i + 1];
      }
      ForestCountPointwise(a[1..], b[1..], n);
    }
  }

  /** One line per node: the flattened subtree has as many lines named `n` as the
      tree has nodes named `n`, whatever `n`. */
  lemma {:induction false} FlattenCount(t: Branch, depth: nat, start: nat, ctx: RenderContext, n: string)
    ensures LineCount(Flatten(t, depth, start, ctx), n) == TreeCount(t, n)
    decreases t, 1
  {
    var e := Entry(t, depth, start, ctx);
    var g := FlattenChildren(t.branches, |t.branches|, depth + 1, start + 1, ctx);
    FlattenChildrenCount(t.branches, |t.branches|, depth + 1, start + 1, ctx, n);
    assert t.branches[..|t.branches|] == t.branches;
    LineCountAppend([e], g, n);
    assert LineCount([e], n) == if t.name == n then 1 else 0 by {
      assert [e][1..] == [];
    }
  }

  lemma {:induction false} FlattenChildrenCount(cs: seq<Branch>, k: nat, depth: nat, start: nat, ctx: RenderContext,
                                                n: string)
    requires k <= |cs|
    ensures LineCount(FlattenChildren(cs, k, depth, start, ctx), n) == ForestCount(cs[..k], n)
    decreases cs, 0, k
  {
    if k > 0 {
      var fi := FlattenChildren(cs, k - 1, depth, start, ctx);
      var h := Flatten(cs[k - 1], depth, start + |fi|, ctx);
      FlattenChildrenCount(cs, k - 1, depth, start, ctx, n);
      FlattenCount(cs[k - 1], depth, start + |fi|, ctx, n);
      CountStep(fi, h, cs, k, n);
    }
  }

  /** The lines of the first `k - 1` subtrees and those of the `k`-th, counted
      together, count the first `k` trees. */
  lemma CountStep(fi: seq<RenderableBranch>, h: seq<RenderableBranch>, cs: seq<Branch>, k: nat, n: string)
    requires 0 < k <= |cs|
    requires LineCount(fi, n) == ForestCount(cs[..k - 1], n) && LineCount(h, n) == TreeCount(cs[k - 1], n)
    ensures LineCount(fi + h, n) == ForestCount(cs[..k], n)
  {
    LineCountAppend(fi, h, n);
    ForestCountPrefix(cs, k, n);
  }

  /** The first `k` trees count as the first `k - 1` and the `k`-th. */
  lemma ForestCountPrefix(cs: seq<Branch>, k: nat, n: string)
    requires 0 < k <= |cs|
    ensures ForestCount(cs[..k], n) == ForestCount(cs[..k - 1], n) + TreeCount(cs[k - 1], n)
  {
    ForestCountLast(cs[..k], n);
    assert cs[..k][..k - 1] == cs[..k - 1];
  }

  // ---------------------------------------------------------------------------
  // The current-branch index

  /** What `current_branch_index` holds after the lines `f` were appended, starting
      from `cur`: the index of the last current line, or `cur` if there is none. */
  function LastCurrent(f: seq<RenderableBranch>, cur: Option<nat>): (r: Option<nat>)
    ensures r.None? ==> cur.None?
  {
    if f == [] then cur
    else if f[|f| - 1].isCurrent then Some(f[|f| - 1].index)
    else LastCurrent(f[..|f| - 1], cur)
  }

  lemma {:induction false} LastCurrentAppend(a: seq<RenderableBranch>, b: seq<RenderableBranch>, cur: Option<nat>)
    ensures LastCurrent(a + b, cur) == LastCurrent(b, LastCurrent(a, cur))
  {
    if b == [] {
      assert a + b == a;
    } else {
      assert (a + b)[..|a + b| - 1] == a + b[..|b| - 1];
      LastCurrentAppend(a, b[..|b| - 1], cur);
    }
  }

  /** Starting from `None`, the index found is that of the last line whose
      `isCurrent` is set, and it is `None` exactly when no line is current. */
  lemma {:induction false} LastCurrentFinds(f: seq<RenderableBranch>)
    requires Indexed(f, 0)
    ensures var r := LastCurrent(f, None);
      && (r.None? <==> forall i :: 0 <= i < |f| ==> !f[i].isCurrent)
      && (r.Some? ==>
            r.value < |f| && f[r.value].isCurrent && forall j :: r.value < j < |f| ==> !f[j].isCurrent)
  {
    if f != [] && !f[|f| - 1].isCurrent {
      LastCurrentFinds(f[..|f| - 1]);
    }
  }

  /** `flatten_tree`: appends the lines of the subtree `b`, children sorted at
      every level, to `result`, and records in `cur` the index of every line for
      the current branch. */
  method FlattenTree(b: Branch, depth: nat, ctx: RenderContext, result: seq<RenderableBranch>, cur: Option<nat>)
    returns (result': seq<RenderableBranch>, cur': Option<nat>)
    ensures result' == result + Flatten(Ordered(b, ctx), depth, |result|, ctx)
    ensures cur' == LastCurrent(Flatten(Ordered(b, ctx), depth, |result|, ctx), cur)
    decreases b, 1
  {
    var index := |result|;
    var isCurrent := b.name == ctx.current;
    var c := cur;
    if isCurrent {
      c := Some(index);
    }
    var entry := Entry(b, depth, index, ctx);
    assert c == LastCurrent([entry], cur);
    var children := SortChildren(b.branches, ctx);
    ghost var o := Ordered(b, ctx);
    FlattenOrdered(b, depth, index, ctx);
    result', cur' := FlattenChildrenInto(b, children, o.branches, depth + 1, ctx, result + [entry], c);
    ghost var rest := FlattenChildren(o.branches, |o.branches|, depth + 1, index + 1, ctx);
    ConcatAssoc(result, [entry], rest);
    LastCurrentAppend([entry], rest, cur);
  }

  /** The loop of `flatten_tree` over the sorted children of `parent`: each child's
      subtree is appended in turn. */
  method FlattenChildrenInto(parent: Branch, children: seq<Branch>, ghost drawn: seq<Branch>, depth: nat,
                             ctx: RenderContext, result: seq<RenderableBranch>, cur: Option<nat>)
    returns (result': seq<RenderableBranch>, cur': Option<nat>)
    requires forall c :: c in children ==> c in parent.branches
    requires |drawn| == |children| && forall i :: 0 <= i < |children| ==> drawn[i] == Ordered(children[i], ctx)
    ensures result' == result + FlattenChildren(drawn, |drawn|, depth, |result|, ctx)
    ensures cur' == LastCurrent(FlattenChildren(drawn, |drawn|, depth, |result|, ctx), cur)
    decreases parent, 0, 1
  {
    result', cur' := result, cur;
    var i := 0;
    while i < |children|
      invariant 0 <= i <= |children| == |drawn|
      invariant result' == result + FlattenChildren(drawn, i, depth, |result|, ctx)
      invariant cur' == LastCurrent(FlattenChildren(drawn, i, depth, |result|, ctx), cur)
    {
      assert children[i] in children;
      result', cur' := FlattenChild(parent, children[i], drawn, i, depth, ctx, result, cur, result', cur');
      i := i + 1;
    }
  }

  /** One iteration of that loop: child `i`'s subtree follows the lines of the
      children before it. */
  method FlattenChild(parent: Branch, child: Branch, ghost drawn: seq<Branch>, ghost i: nat, depth: nat,
                      ctx: RenderContext, ghost result: seq<RenderableBranch>, ghost cur: Option<nat>,
                      r0: seq<RenderableBranch>, c0: Option<nat>)
    returns (r1: seq<RenderableBranch>, c1: Option<nat>)
    requires child in parent.branches
    requires i < |drawn| && drawn[i] == Ordered(child, ctx)
    requires r0 == result + FlattenChildren(drawn, i, depth, |result|, ctx)
    requires c0 == LastCurrent(FlattenChildren(drawn, i, depth, |result|, ctx), cur)
    ensures r1 == result + FlattenChildren(drawn, i + 1, depth, |result|, ctx)
    ensures c1 == LastCurrent(FlattenChildren(drawn, i + 1, depth, |result|, ctx), cur)
    decreases parent, 0, 0
  {
    r1, c1 := FlattenTree(child, depth, ctx, r0, c0);
    FlattenChildrenStep(drawn, i, depth, ctx, result, cur, r0, c0, r1, c1);
  }

  /** Appending the lines of child `i` after those of the children before it
      gives the lines of the first `i + 1` children, and the index the scan
      leaves behind follows. */
  lemma FlattenChildrenStep(drawn: seq<Branch>, i: nat, depth: nat, ctx: RenderContext,
                            result: seq<RenderableBranch>, cur: Option<nat>,
                            r0: seq<RenderableBranch>, c0: Option<nat>, r1: seq<RenderableBranch>, c1: Option<nat>)
    requires i < |drawn|
    requires r0 == result + FlattenChildren(drawn, i, depth, |result|, ctx)
    requires c0 == LastCurrent(FlattenChildren(drawn, i, depth, |result|, ctx), cur)
    requires r1 == r0 + Flatten(drawn[i], depth, |r0|, ctx)
    requires c1 == LastCurrent(Flatten(drawn[i], depth, |r0|, ctx), c0)
    ensures r1 == result + FlattenChildren(drawn, i + 1, depth, |result|, ctx)
    ensures c1 == LastCurrent(FlattenChildren(drawn, i + 1, depth, |result|, ctx), cur)
  {
    var done := FlattenChildren(drawn, i, depth, |result|, ctx);
    var part := Flatten(drawn[i], depth, |r0|, ctx);
    FlattenChildrenNext(drawn, i, depth, |result|, |r0|, ctx);
    LastCurrentAppend(done, part, cur);
    ConcatAssoc(result, done, part);
  }

  lemma ConcatAssoc<T>(a: seq<T>, b: seq<T>, c: seq<T>)
    ensures a + b + c == a + (b + c)
  {
  }

  /** The lines of one more child follow those of the children before it. */
  lemma FlattenChildrenNext(cs: seq<Branch>, i: nat, depth: nat, start: nat, at: nat, ctx: RenderContext)
    requires i < |cs|
    requires at == start + |FlattenChildren(cs, i, depth, start, ctx)|
    ensures FlattenChildren(cs, i + 1, depth, start, ctx)
      == FlattenChildren(cs, i, depth, start, ctx) + Flatten(cs[i], depth, at, ctx)
  {
  }

  /** `compute_renderable_tree`: the whole tree, children sorted, flattened from an
      empty list. One line per node, each line's index is its position, the root
      first at depth 0, and the current index is that of the last line for the
      current branch, absent exactly when no node is named after it. */
  method ComputeRenderableTree(tree: Branch, ctx: RenderContext) returns (r: RenderableTree)
    ensures r.branches == Flatten(Ordered(tree, ctx), 0, 0, ctx)
    ensures forall n :: LineCount(r.branches, n) == TreeCount(tree, n)
    ensures forall i :: 0 <= i < |r.branches| ==> r.branches[i].index == i
    ensures r.branches[0].name == tree.name && r.branches[0].depth == 0
    ensures r.currentBranchIndex.None? <==> TreeCount(tree, ctx.current) == 0
    ensures r.currentBranchIndex.Some? ==>
      var k := r.currentBranchIndex.value;
      k < |r.branches| && r.branches[k].name == ctx.current
      && forall j :: k < j < |r.branches| ==> r.branches[j].name != ctx.current
  {
    var branches, cur := FlattenTree(tree, 0, ctx, [], None);
    ghost var o := Ordered(tree, ctx);
    assert branches == Flatten(o, 0, 0, ctx) && cur == LastCurrent(Flatten(o, 0, 0, ctx), None);
    r := RenderableTree(branches, cur);
    FlattenRoot(o, ctx);
    forall n ensures TreeCount(o, n) == TreeCount(tree, n) {
      OrderedCount(tree, ctx, n);
    }
  }

  /** What flattening a whole tree guarantees, for the lines and for the index
      left behind by scanning them from `None`. */
  lemma FlattenRoot(t: Branch, ctx: RenderContext)
    ensures var f := Flatten(t, 0, 0, ctx);
      var k := LastCurrent(f, None);
      && (forall n :: LineCount(f, n) == TreeCount(t, n))
      && (forall i :: 0 <= i < |f| ==> f[i].index == i)
      && f[0].name == t.name && f[0].depth == 0
      && (k.None? <==> TreeCount(t, ctx.current) == 0)
      && (k.Some? ==>
            k.value < |f| && f[k.value].name == ctx.current
            && forall j :: k.value < j < |f| ==> f[j].name != ctx.current)
  {
    var f := Flatten(t, 0, 0, ctx);
    forall n ensures LineCount(f, n) == TreeCount(t, n) {
      FlattenCount(t, 0, 0, ctx, n);
    }
    FlattenShape(t, 0, 0, ctx);
    LastCurrentFinds(f);
    LineCountPositive(f, ctx.current);
    forall i | 0 <= i < |f| ensures f[i].isCurrent <==> f[i].name == ctx.current {
      FlattenCurrentFlag(t, 0, 0, ctx, i);
    }
  }

  /** A line is marked current exactly when it names the current branch. */
  lemma FlattenCurrentFlag(t: Branch, depth: nat, start: nat, ctx: RenderContext, i: nat)
    requires i < |Flatten(t, depth, start, ctx)|
    ensures var e := Flatten(t, depth, start, ctx)[i]; e.isCurrent <==> e.name == ctx.current
  {
    FlattenFlags(t, depth, start, ctx);
  }

  /** Every line is marked current exactly when it names `cur`. */
  predicate CurrentFlagged(f: seq<RenderableBranch>, cur: string) {
    forall i :: 0 <= i < |f| ==> (f[i].isCurrent <==> f[i].name == cur)
  }

  lemma FlagsAppend(a: seq<RenderableBranch>, b: seq<RenderableBranch>, cur: string)
    requires CurrentFlagged(a, cur) && CurrentFlagged(b, cur)
    ensures CurrentFlagged(a + b, cur)
  {
    forall i | 0 <= i < |a + b| ensures ((a + b)[i].isCurrent <==> (a + b)[i].name == cur) {
      if i >= |a| { assert (a + b)[i] == b[i - |a|]; }
    }
  }

  lemma {:induction false} FlattenFlags(t: Branch, depth: nat, start: nat, ctx: RenderContext)
    ensures CurrentFlagged(Flatten(t, depth, start, ctx), ctx.current)
    decreases t, 1
  {
    var e := Entry(t, depth, start, ctx);
    var g := FlattenChildren(t.branches, |t.branches|, depth + 1, start + 1, ctx);
    FlattenChildrenFlags(t.branches, |t.branches|, depth + 1, start + 1, ctx);
    FlagsAppend([e], g, ctx.current);
  }

  lemma {:induction false} FlattenChildrenFlags(cs: seq<Branch>, n: nat, depth: nat, start: nat, ctx: RenderContext)
    requires n <= |cs|
    ensures CurrentFlagged(FlattenChildren(cs, n, depth, start, ctx), ctx.current)
    decreases cs, 0, n
  {
    if n > 0 {
      var init := FlattenChildren(cs, n - 1, depth, start, ctx);
      var h := Flatten(cs[n - 1], depth, start + |init|, ctx);
      FlattenChildrenFlags(cs, n - 1, depth, start, ctx);
      FlattenFlags(cs[n - 1], depth, start + |init|, ctx);
      FlagsAppend(init, h, ctx.current);
    }
  }
}
