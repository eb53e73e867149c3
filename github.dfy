/** The GitHub-facing logic of `src/github.rs` that does not touch the network:
    the shape of a pull request as the REST API returns it, the predicates that
    classify it, the `list_prs` selection, the classification of HTTP failures,
    the API base for a host, and the parser for `origin` remote URLs. */
module Github {
  import opened Wrappers
  import opened Strings

  /** `owner/repo` on `host`, as read from the `origin` remote. */
  datatype RepoIdentifier = RepoIdentifier(owner: string, repo: string, host: string)

  /** `RepoIdentifier::full_name`: `owner/repo`. Splitting it at its first `/`
      gives the two parts back whenever the owner has no `/` of its own, which
      every identifier `ParseRemoteUrl` returns satisfies. */
  function FullName(id: RepoIdentifier): (r: string)
    ensures '/' !in id.owner ==> SplitOnce(r, '/') == Some((id.owner, id.repo))
  {
    var r := id.owner + "/" + id.repo;
    if '/' !in id.owner then SplitOnceJoin(id.owner, '/', id.repo); r else r
  }

  datatype PrState = Open | Closed

  datatype PrDisplayState = Draft | Open | Merged | Closed

  datatype PrRepoRef = PrRepoRef(fullName: string)

  /** One end of a pull request; `repo` is absent when the fork was deleted. */
  datatype PrBranchRef = PrBranchRef(refName: string, sha: string, repo: Option<PrRepoRef>)

  datatype PrUser = PrUser(login: string)

  datatype PullRequest = PullRequest(
    number: nat,
    state: PrState,
    title: string,
    htmlUrl: string,
    base: PrBranchRef,
    head: PrBranchRef,
    user: PrUser,
    draft: bool,
    merged: bool,
    mergedAt: Option<string>)

  /** The list endpoint leaves `merged` false and fills `merged_at`, the single-PR
      endpoint fills `merged`: either one counts. */
  predicate IsMerged(pr: PullRequest) {
    pr.merged || pr.mergedAt.Some?
  }

  /** Whether the PR comes from another repository than the one it targets. */
  function IsFromFork(pr: PullRequest): (r: bool)
    ensures pr.head.repo.None? ==> r
    ensures pr.head.repo.Some? && pr.base.repo.None? ==> !r
    ensures pr.head.repo.Some? && pr.base.repo.Some? ==>
      (r <==> pr.head.repo.value.fullName != pr.base.repo.value.fullName)
  {
    match (pr.head.repo, pr.base.repo)
    case (None, _) => true
    case (_, None) => false
    case (Some(h), Some(b)) => h.fullName != b.fullName
  }

  /** The state shown to the user: merged before closed before draft before open. */
  function DisplayState(pr: PullRequest): (r: PrDisplayState)
    ensures r == PrDisplayState.Merged <==> IsMerged(pr)
    ensures r == PrDisplayState.Closed <==> !IsMerged(pr) && pr.state.Closed?
    ensures r == PrDisplayState.Draft <==> !IsMerged(pr) && pr.state.Open? && pr.draft
    ensures r == PrDisplayState.Open <==> !IsMerged(pr) && pr.state.Open? && !pr.draft
  {
    if IsMerged(pr) then PrDisplayState.Merged
    else if pr.state.Closed? then PrDisplayState.Closed
    else if pr.draft then PrDisplayState.Draft
    else PrDisplayState.Open
  }

  datatype GitHubError =
    | NoToken
    | Unauthorized
    | RateLimited(resetAt: nat)
    | PrAlreadyExists(prNumber: nat)
    | BranchNotPushed(branch: string)
    | Network(message: string)
    | Api(status: nat, message: string)

  /** `handle_ureq_error`: the failure is classified by the first status code its
      message mentions, tried in the order 401, 403, 422, 404; a message that
      mentions none of them is a network failure. */
  function ClassifyError(msg: string): (r: GitHubError)
    ensures r == Unauthorized <==> Contains(msg, "401")
    ensures r.Api? <==>
      !Contains(msg, "401") && (Contains(msg, "403") || Contains(msg, "422") || Contains(msg, "404"))
    ensures r.Api? ==> r.message == msg && Contains(msg, NatToDigits(r.status))
    ensures r.Api? && r.status == 422 ==> !Contains(msg, "403")
    ensures r.Api? && r.status == 404 ==> !Contains(msg, "403") && !Contains(msg, "422")
    ensures r.Network? <==>
      !Contains(msg, "401") && !Contains(msg, "403") && !Contains(msg, "422") && !Contains(msg, "404")
    ensures r.Network? ==> r.message == msg
  {
    if Contains(msg, "401") then Unauthorized
    else if Contains(msg, "403") then Api(403, msg)
    else if Contains(msg, "422") then Api(422, msg)
    else if Contains(msg, "404") then Api(404, msg)
    else Network(msg)
  }

  /** The decimal digits of the three status codes the classifier looks for. */
  function NatToDigits(status: nat): string {
    if status == 403 then "403" else if status == 422 then "422" else if status == 404 then "404" else ""
  }

  /** The REST API root for `host`: the public API for github.com, the
      `/api/v3` path of a GitHub Enterprise server otherwise. */
  function ApiBase(host: string): (r: string)
    ensures StartsWith(r, "https://")
    ensures host == "github.com" ==> r == "https://api.github.com"
    ensures host != "github.com" ==> r[8..] == host + "/api/v3"
  {
    if host == "github.com" then "https://api.github.com"
    else "https://" + host + "/api/v3"
  }

  /** The `list_prs` filter: with `sync_authors` configured a PR is kept exactly
      when its author is listed, forks included; without it, fork PRs are dropped. */
  predicate KeepPr(pr: PullRequest, syncAuthors: seq<string>) {
    if |syncAuthors| > 0 then pr.user.login in syncAuthors else !IsFromFork(pr)
  }

  /** The map `list_prs` returns: the kept PRs keyed by head branch name, a later
      PR replacing an earlier one with the same head. */
  function PrMap(prs: seq<PullRequest>, syncAuthors: seq<string>): (m: map<string, PullRequest>)
    ensures forall k :: k in m ==> KeepPr(m[k], syncAuthors) && m[k].head.refName == k && m[k] in prs
    ensures forall i :: 0 <= i < |prs| && KeepPr(prs[i], syncAuthors) ==> prs[i].head.refName in m
    ensures forall i :: 0 <= i < |prs| && KeepPr(prs[i], syncAuthors) && IsLastKept(prs, syncAuthors, i) ==>
      m[prs[i].head.refName] == prs[i]
  {
    if prs == [] then map[]
    else
      var init := prs[..|prs| - 1];
      var last := prs[|prs| - 1];
      var m := PrMap(init, syncAuthors);
      assert forall i :: 0 <= i < |init| ==> init[i] == prs[i];
      if KeepPr(last, syncAuthors) then m[last.head.refName := last] else m
  }

  /** No kept PR after position `i` has the same head branch. */
  predicate IsLastKept(prs: seq<PullRequest>, syncAuthors: seq<string>, i: nat)
    requires i < |prs|
  {
    forall j :: i < j < |prs| && KeepPr(prs[j], syncAuthors) ==> prs[j].head.refName != prs[i].head.refName
  }

  /** Which of `list_prs`'s inputs end up in its map: with authors configured,
      exactly the heads of PRs by those authors (fork or not); without, exactly
      the heads of PRs that are not from forks. */
  lemma {:induction false} PrMapKeys(prs: seq<PullRequest>, syncAuthors: seq<string>, k: string)
    ensures |syncAuthors| > 0 ==>
      (k in PrMap(prs, syncAuthors) <==>
        exists i :: 0 <= i < |prs| && prs[i].head.refName == k && prs[i].user.login in syncAuthors)
    ensures |syncAuthors| == 0 ==>
      (k in PrMap(prs, syncAuthors) <==>
        exists i :: 0 <= i < |prs| && prs[i].head.refName == k && !IsFromFork(prs[i]))
  {
    var m := PrMap(prs, syncAuthors);
    if k in m {
      var i :| 0 <= i < |prs| && prs[i] == m[k];
      assert prs[i].head.refName == k;
    }
  }

  // ---------------------------------------------------------------------------
  // Remote URL parsing

  /** The error `parse_remote_url` reports for the (trimmed) text `url`. */
  function ParseError(url: string): string {
    "Could not parse GitHub remote URL: " + url
      + ". Expected format like 'git@github.com:owner/repo.git' or 'https://github.com/owner/repo'"
  }

  /** The text `<host><sep><owner>/<repo>` an identifier is read from. */
  function Spelled(id: RepoIdentifier, sep: char): string {
    id.host + [sep] + (id.owner + "/" + id.repo)
  }

  /** `host<sep>owner/repo[.git…]`: the host is cut at the first `sep`, the trailing
      `.git` copies are stripped from the rest, and that is cut at its first `/`. */
  function SplitHostPath(rest: string, sep: char): (r: Option<RepoIdentifier>)
    ensures r.Some? ==> '/' !in r.value.owner && sep !in r.value.host
    ensures r.Some? ==> !EndsWith(r.value.owner + "/" + r.value.repo, ".git")
  {
    match SplitOnce(rest, sep)
    case None => None
    case Some((host, tail)) =>
      match SplitOnce(TrimEndMatches(tail, ".git"), '/')
      case None => None
      case Some((owner, repo)) => Some(RepoIdentifier(owner, repo, host))
  }

  /** What `SplitHostPath` returns is spelled out at the start of its input: only
      the `.git` copies after the repository are dropped. */
  lemma SplitHostPathReadsBack(rest: string, sep: char)
    requires SplitHostPath(rest, sep).Some?
    ensures StartsWith(rest, Spelled(SplitHostPath(rest, sep).value, sep))
  {
    var (host, tail) := SplitOnce(rest, sep).value;
    var path := TrimEndMatches(tail, ".git");
    var (owner, repo) := SplitOnce(path, '/').value;
    assert SplitHostPath(rest, sep).value == RepoIdentifier(owner, repo, host);
    StartsWithConcat(host + [sep], tail, path);
  }

  /** The URL with its scheme removed: `https://`, then `ssh://git@`, then
      `ssh://`, then `git://` are tried in turn. */
  function StripScheme(url: string): string {
    match StripPrefix(url, "https://")
    case Some(r) => r
    case None =>
      match StripPrefix(url, "ssh://git@")
      case Some(r) => r
      case None =>
        match StripPrefix(url, "ssh://")
        case Some(r) => r
        case None => StripPrefix(url, "git://").UnwrapOr(url)
  }

  predicate HasUrlScheme(url: string) {
    StartsWith(url, "https://") || StartsWith(url, "ssh://") || StartsWith(url, "git://")
  }

  /** `parse_remote_url` once the input is trimmed. */
  function ParseTrimmed(url: string): Result<RepoIdentifier, string> {
    var ssh := if StartsWith(url, "git@") then SplitHostPath(url[4..], ':') else None;
    if ssh.Some? then Ok(ssh.value)
    else if HasUrlScheme(url) then
      match SplitHostPath(StripScheme(url), '/')
      case Some(id) => Ok(id)
      case None => Err(ParseError(url))
    else Err(ParseError(url))
  }

  /** `parse_remote_url`: the identifier named by an scp-style
      `git@host:owner/repo[.git]` or by an `https://`, `ssh://` or `git://` URL. A
      result always reads back out of the trimmed input, its owner never holds a
      `/` (the path is cut at its first `/` and the repository keeps the rest),
      and no `.git` is left at its end. */
  function ParseRemoteUrl(url: string): (r: Result<RepoIdentifier, string>)
    ensures r.Err? ==> r.error == ParseError(Trim(url))
    ensures r.Ok? ==> '/' !in r.value.owner && !EndsWith(r.value.owner + "/" + r.value.repo, ".git")
    ensures r.Ok? ==> ReadsBack(Trim(url), r.value)
    ensures !StartsWith(Trim(url), "git@") && !HasUrlScheme(Trim(url)) ==> r.Err?
  {
    var t := Trim(url);
    ParseTrimmedShape(t);
    ParseTrimmedReadsBack(t);
    ParseTrimmed(t)
  }

  /** Whitespace around a remote URL, such as the line feed `git remote get-url`
      prints after it, does not change what it parses to. */
  lemma ParsePaddedUrl(ws1: string, url: string, ws2: string)
    requires AllWhitespace(ws1) && AllWhitespace(ws2)
    ensures ParseRemoteUrl(ws1 + url + ws2) == ParseRemoteUrl(url)
  {
    TrimPadded(ws1, url, ws2);
  }

  /** The error names the trimmed input, and an identifier has the shape
      `SplitHostPath` gives. */
  lemma ParseTrimmedShape(t: string)
    ensures var r := ParseTrimmed(t);
      && (r.Err? ==> r.error == ParseError(t))
      && (r.Ok? ==> '/' !in r.value.owner && !EndsWith(r.value.owner + "/" + r.value.repo, ".git"))
      && (!StartsWith(t, "git@") && !HasUrlScheme(t) ==> r.Err?)
  {
    var ssh := if StartsWith(t, "git@") then SplitHostPath(t[4..], ':') else None;
    if ssh.None? && HasUrlScheme(t) {
      var o := SplitHostPath(StripScheme(t), '/');
      assert o.Some? ==> ParseTrimmed(t) == Ok(o.value);
    }
  }

  /** What `ParseTrimmed` returns can be read back out of its input. */
  lemma ParseTrimmedReadsBack(t: string)
    ensures ParseTrimmed(t).Ok? ==> ReadsBack(t, ParseTrimmed(t).value)
  {
    if ParseTrimmed(t).Ok? {
      var id := ParseTrimmed(t).value;
      if StartsWith(t, "git@") && SplitHostPath(t[4..], ':').Some? {
        assert t == "git@" + t[4..];
        PrefixedReadsBack("git@", t[4..], ':', id);
      } else {
        var w := StripScheme(t);
        assert SplitHostPath(w, '/') == Some(id);
        StripSchemeCases(t);
        if StartsWith(t, "https://") {
          PrefixedReadsBack("https://", w, '/', id);
        } else if StartsWith(t, "ssh://git@") {
          PrefixedReadsBack("ssh://git@", w, '/', id);
        } else if StartsWith(t, "ssh://") {
          PrefixedReadsBack("ssh://", w, '/', id);
        } else {
          PrefixedReadsBack("git://", w, '/', id);
        }
      }
    }
  }

  /** Which scheme `StripScheme` removes from a URL that has one. */
  lemma StripSchemeCases(t: string)
    requires HasUrlScheme(t)
    ensures StartsWith(t, "https://") ==> t == "https://" + StripScheme(t)
    ensures !StartsWith(t, "https://") && StartsWith(t, "ssh://git@") ==> t == "ssh://git@" + StripScheme(t)
    ensures !StartsWith(t, "https://") && !StartsWith(t, "ssh://git@") && StartsWith(t, "ssh://") ==>
      t == "ssh://" + StripScheme(t)
    ensures !StartsWith(t, "https://") && !StartsWith(t, "ssh://") ==> t == "git://" + StripScheme(t)
  {
  }

  /** A scheme in front does not change what is read back. */
  lemma PrefixedReadsBack(p: string, w: string, sep: char, id: RepoIdentifier)
    requires SplitHostPath(w, sep) == Some(id)
    ensures StartsWith(p + w, p + Spelled(id, sep))
  {
    SplitHostPathReadsBack(w, sep);
    StartsWithConcat(p, w, Spelled(id, sep));
  }

  /** `t` spells out `id` in one of the five accepted forms. */
  predicate ReadsBack(t: string, id: RepoIdentifier) {
    || (StartsWith(t, "git@" + Spelled(id, ':')) && ':' !in id.host)
    || (StartsWith(t, "https://" + Spelled(id, '/')) && '/' !in id.host)
    || (StartsWith(t, "ssh://git@" + Spelled(id, '/')) && '/' !in id.host)
    || (StartsWith(t, "ssh://" + Spelled(id, '/')) && '/' !in id.host)
    || (StartsWith(t, "git://" + Spelled(id, '/')) && '/' !in id.host)
  }

  lemma StartsWithConcat(p: string, s: string, q: string)
    requires StartsWith(s, q)
    ensures StartsWith(p + s, p + q)
  {
    assert (p + s)[..|p + q|] == p + s[..|q|];
  }

  // ---------------------------------------------------------------------------
  // Round trips

  /** The text does not end in whitespace, so `trim` keeps all of it. */
  predicate NoTrailingSpace(s: string) {
    s == [] || !IsWhitespace(s[|s| - 1])
  }

  /** Text with no whitespace at either end is its own trim. */
  lemma TrimUnchanged(s: string)
    requires s != [] && !IsWhitespace(s[0]) && !IsWhitespace(s[|s| - 1])
    ensures Trim(s) == s
  {
  }

  /** Spelling an identifier out and splitting it again gives it back, with or
      without a `.git` after it, as long as the separators cannot be confused:
      the host holds no `sep`, the owner no `/`, and the path ends in no `.git`. */
  lemma {:induction false} SplitHostPathJoin(id: RepoIdentifier, sep: char, suffix: string)
    requires suffix == "" || suffix == ".git"
    requires sep !in id.host && '/' !in id.owner
    requires !EndsWith(id.owner + "/" + id.repo, ".git")
    ensures SplitHostPath(Spelled(id, sep) + suffix, sep) == Some(id)
  {
    var path := id.owner + "/" + id.repo;
    assert Spelled(id, sep) + suffix == id.host + [sep] + (path + suffix);
    SplitOnceJoin(id.host, sep, path + suffix);
    if suffix == ".git" {
      TrimEndMatchesAppend(path, ".git");
    } else {
      assert path + suffix == path;
    }
    TrimEndMatchesNoSuffix(path, ".git");
    SplitOnceJoin(id.owner, '/', id.repo);
  }

  /** A spelled-out identifier ends in no whitespace when its repository does not. */
  lemma SpelledEnd(id: RepoIdentifier, sep: char, suffix: string)
    requires suffix == "" || suffix == ".git"
    requires NoTrailingSpace(id.repo)
    ensures var s := Spelled(id, sep) + suffix; s != [] && !IsWhitespace(s[|s| - 1])
  {
    var s := Spelled(id, sep) + suffix;
    if suffix == "" {
      assert s[|s| - 1] == if id.repo == [] then '/' else id.repo[|id.repo| - 1];
    } else {
      assert s[|s| - 1] == 't';
    }
  }

  /** A scheme or user prefix that starts with a letter, before text that ends in
      no whitespace, survives `trim` whole. */
  lemma TrimPrefixed(p: string, s: string)
    requires p != [] && !IsWhitespace(p[0])
    requires s != [] && !IsWhitespace(s[|s| - 1])
    ensures Trim(p + s) == p + s
  {
    var u := p + s;
    assert u[0] == p[0] && u[|u| - 1] == s[|s| - 1];
    TrimUnchanged(u);
  }

  /** The scp-style form reads back: `git@<host>:<owner>/<repo>[.git]`. */
  lemma {:induction false} ParseSshRoundTrip(id: RepoIdentifier, suffix: string)
    requires suffix == "" || suffix == ".git"
    requires ':' !in id.host && '/' !in id.owner
    requires !EndsWith(id.owner + "/" + id.repo, ".git") && NoTrailingSpace(id.repo)
    ensures ParseRemoteUrl("git@" + (Spelled(id, ':') + suffix)) == Ok(id)
  {
    var w := Spelled(id, ':') + suffix;
    var url := "git@" + w;
    SpelledEnd(id, ':', suffix);
    TrimPrefixed("git@", w);
    assert url[4..] == w;
    SplitHostPathJoin(id, ':', suffix);
  }

  /** After `ssh://` a host that does not begin with `git@` is not read as a user. */
  lemma SpelledNoUser(id: RepoIdentifier, suffix: string)
    requires '/' !in id.host && !StartsWith(id.host, "git@")
    ensures !StartsWith(Spelled(id, '/') + suffix, "git@")
  {
    var w := Spelled(id, '/') + suffix;
    if |id.host| >= 4 {
      assert w[..4] == id.host[..4];
    } else {
      assert w[|id.host|] == '/';
    }
  }

  /** The URL forms read back: `<scheme><host>/<owner>/<repo>[.git]` for the
      `https://`, `ssh://git@`, `ssh://` and `git://` schemes (after `ssh://` the
      host must not itself begin with `git@`, which would be taken as a user). */
  lemma {:induction false} ParseUrlRoundTrip(scheme: string, id: RepoIdentifier, suffix: string)
    requires scheme in ["https://", "ssh://git@", "ssh://", "git://"]
    requires scheme == "ssh://" ==> !StartsWith(id.host, "git@")
    requires suffix == "" || suffix == ".git"
    requires '/' !in id.host && '/' !in id.owner
    requires !EndsWith(id.owner + "/" + id.repo, ".git") && NoTrailingSpace(id.repo)
    ensures ParseRemoteUrl(scheme + (Spelled(id, '/') + suffix)) == Ok(id)
  {
    var w := Spelled(id, '/') + suffix;
    var url := scheme + w;
    UrlShape(scheme, id, suffix);
    ParseTrimmedUrl(url, w, id, suffix);
    ParseUntrimmed(url, id);
  }

  /** A URL spelled with one of the schemes is already trimmed, has no `git@`
      in front, and loses exactly its scheme to `StripScheme`. */
  lemma UrlShape(scheme: string, id: RepoIdentifier, suffix: string)
    requires scheme in ["https://", "ssh://git@", "ssh://", "git://"]
    requires scheme == "ssh://" ==> !StartsWith(id.host, "git@")
    requires suffix == "" || suffix == ".git"
    requires '/' !in id.host && NoTrailingSpace(id.repo)
    ensures var w := Spelled(id, '/') + suffix; var url := scheme + w;
      Trim(url) == url && !StartsWith(url, "git@") && HasUrlScheme(url) && StripScheme(url) == w
  {
    var w := Spelled(id, '/') + suffix;
    SpelledEnd(id, '/', suffix);
    SchemeTrimmed(scheme, w);
    SchemeNoUser(scheme, w);
    if scheme == "ssh://" {
      SpelledNoUser(id, suffix);
    }
    StripSchemeOf(scheme, w);
  }

  lemma SchemeTrimmed(scheme: string, w: string)
    requires scheme in ["https://", "ssh://git@", "ssh://", "git://"]
    requires w != [] && !IsWhitespace(w[|w| - 1])
    ensures Trim(scheme + w) == scheme + w
  {
    assert !IsWhitespace(scheme[0]);
    TrimPrefixed(scheme, w);
  }

  lemma SchemeNoUser(scheme: string, w: string)
    requires scheme in ["https://", "ssh://git@", "ssh://", "git://"]
    ensures !StartsWith(scheme + w, "git@")
  {
    assert (scheme + w)[3] == scheme[3] != '@';
  }

  lemma ParseTrimmedUrl(url: string, w: string, id: RepoIdentifier, suffix: string)
    requires w == Spelled(id, '/') + suffix
    requires !StartsWith(url, "git@") && HasUrlScheme(url) && StripScheme(url) == w
    requires suffix == "" || suffix == ".git"
    requires '/' !in id.host && '/' !in id.owner
    requires !EndsWith(id.owner + "/" + id.repo, ".git")
    ensures ParseTrimmed(url) == Ok(id)
  {
    SplitHostPathJoin(id, '/', suffix);
    ParseTrimmedScheme(url, id);
  }

  lemma ParseUntrimmed(url: string, id: RepoIdentifier)
    requires Trim(url) == url && ParseTrimmed(url) == Ok(id)
    ensures ParseRemoteUrl(url) == Ok(id)
  {
  }

  lemma ParseTrimmedScheme(url: string, id: RepoIdentifier)
    requires !StartsWith(url, "git@") && HasUrlScheme(url)
    requires SplitHostPath(StripScheme(url), '/') == Some(id)
    ensures ParseTrimmed(url) == Ok(id)
  {
  }

  /** `StripScheme` removes exactly the scheme a URL was written with. */
  lemma StripSchemeOf(scheme: string, w: string)
    requires scheme in ["https://", "ssh://git@", "ssh://", "git://"]
    requires scheme == "ssh://" ==> !StartsWith(w, "git@")
    ensures HasUrlScheme(scheme + w)
    ensures StripScheme(scheme + w) == w
  {
    var url := scheme + w;
    assert url[..|scheme|] == scheme && url[|scheme|..] == w;
    assert url[0] == scheme[0] && url[3] == scheme[3];
    if scheme == "ssh://git@" {
      assert StartsWith(url, "ssh://git@");
    }
  }
}
