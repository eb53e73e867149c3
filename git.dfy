/** The pure helpers of `src/git.rs`: the captured output of one git invocation and
    the `after_text` substring helper. Spawning git is not part of this model. */
module Git {
  import opened Wrappers
  import opened Strings

  /** The remote every ref lookup is made against. */
  const DefaultRemote: string := "origin"

  /** What `run_git` captured: the command's standard output, already trimmed. */
  datatype GitOutput = GitOutput(stdout: string) {

    /** Git printed nothing (after trimming). */
    predicate IsEmpty(): (r: bool)
      ensures r <==> |stdout| == 0
    {
      stdout == []
    }

    /** The output, or `None` when git printed nothing. */
    function Output(): (r: Option<string>)
      ensures r.None? <==> IsEmpty()
      ensures r.Some? ==> r.value == stdout
    {
      if stdout == [] then None else Some(stdout)
    }

    /** The output, or an error carrying `message` when git printed nothing. */
    function OutputOr(message: string): (r: Result<string, string>)
      ensures r.Err? <==> IsEmpty()
      ensures r.Err? ==> r.error == message
      ensures r.Ok? ==> r.value == stdout
    {
      if stdout == [] then Err(message) else Ok(stdout)
    }
  }

  /** The three accessors agree: `output_or` succeeds exactly when `output` has a
      value, and then with the same text. */
  lemma OutputAccessorsAgree(g: GitOutput, message: string)
    ensures g.OutputOr(message).Ok? <==> g.Output().Some?
    ensures g.Output().Some? ==> g.OutputOr(message).value == g.Output().value
  {
  }

  /** The text of `s` after the first occurrence of `needle`, or `None` when
      `needle` does not occur in `s`. */
  function AfterText(s: string, needle: string): (r: Option<string>)
    ensures r.None? <==> forall j: nat :: !MatchAt(s, needle, j)
    ensures r.Some? ==> |needle| + |r.value| <= |s|
    ensures r.Some? ==>
      var p := |s| - |needle| - |r.value|;
      s == s[..p] + needle + r.value && forall j: nat :: j < p ==> !MatchAt(s, needle, j)
  {
    match Find(s, needle)
    case None => None
    case Some(pos) =>
      assert s == s[..pos] + s[pos..pos + |needle|] + s[pos + |needle|..];
      Some(s[pos + |needle|..])
  }

  /** An empty needle occurs at the very start, so nothing is cut. */
  lemma AfterTextEmptyNeedle(s: string)
    ensures AfterText(s, "") == Some(s)
  {
    assert MatchAt(s, "", 0);
  }

  /** The use `State::checkout` makes of it: the branch name of `origin/<name>`. */
  lemma {:induction false} AfterTextRemotePrefix(name: string)
    ensures AfterText(DefaultRemote + "/" + name, DefaultRemote + "/") == Some(name)
  {
    var s := DefaultRemote + "/" + name;
    assert MatchAt(s, "origin/", 0);
    assert s[7..] == name;
  }
}
