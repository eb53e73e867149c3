/** The `str` operations the core relies on (`find`, `contains`, `strip_prefix`,
    `splitn(2, _)`, `trim`, `trim_end_matches`, `lines().next()` and the `Ord` of
    strings), written over sequences of characters. A Rust byte offset becomes a
    character offset here; every use in the core pairs an offset with a length
    measured in the same unit, so the two readings agree. */
module Strings {
  import opened Wrappers

  predicate StartsWith(s: string, p: string) {
    |p| <= |s| && s[..|p|] == p
  }

  predicate EndsWith(s: string, p: string) {
    |p| <= |s| && s[|s| - |p|..] == p
  }

  /** `needle` occurs in `s` starting at position `i`. */
  predicate MatchAt(s: string, needle: string, i: nat) {
    i + |needle| <= |s| && s[i..i + |needle|] == needle
  }

  /** `str::strip_prefix`. */
  function StripPrefix(s: string, p: string): (r: Option<string>)
    ensures r.Some? <==> StartsWith(s, p)
    ensures r.Some? ==> s == p + r.value
  {
    if StartsWith(s, p) then
      assert s == p + s[|p|..];
      Some(s[|p|..])
    else None
  }

  function FindFrom(s: string, needle: string, i: nat): (r: Option<nat>)
    requires i <= |s|
    ensures r.Some? ==> i <= r.value && MatchAt(s, needle, r.value)
    ensures r.Some? ==> forall j :: i <= j < r.value ==> !MatchAt(s, needle, j)
    ensures r.None? ==> forall j :: i <= j ==> !MatchAt(s, needle, j)
    decreases |s| - i
  {
    if MatchAt(s, needle, i) then Some(i)
    else if i == |s| then None
    else FindFrom(s, needle, i + 1)
  }

  /** `str::find`: the first position at which `needle` occurs. */
  function Find(s: string, needle: string): (r: Option<nat>)
    ensures r.Some? ==> MatchAt(s, needle, r.value)
    ensures r.Some? ==> forall j: nat :: j < r.value ==> !MatchAt(s, needle, j)
    ensures r.None? <==> forall j: nat :: !MatchAt(s, needle, j)
  {
    FindFrom(s, needle, 0)
  }

  /** `str::contains`. */
  predicate Contains(s: string, needle: string) {
    Find(s, needle).Some?
  }

  /** The first position of character `c` in `s`. */
  function IndexOf(s: string, c: char): (r: Option<nat>)
    ensures r.Some? <==> c in s
    ensures r.Some? ==> r.value < |s| && s[r.value] == c && c !in s[..r.value]
  {
    if s == [] then None
    else if s[0] == c then Some(0)
    else match IndexOf(s[1..], c)
      case None => None
      case Some(k) =>
        assert s[..k + 1] == [s[0]] + s[1..][..k];
        Some(k + 1)
  }

  /** `s.splitn(2, c)` when it yields two parts: the text before the first `c`
      and everything after it; `None` when `c` does not occur (one part). */
  function SplitOnce(s: string, c: char): (r: Option<(string, string)>)
    ensures r.Some? <==> c in s
    ensures r.Some? ==> s == r.value.0 + [c] + r.value.1 && c !in r.value.0
  {
    match IndexOf(s, c)
    case None => None
    case Some(k) =>
      assert s == s[..k] + [c] + s[k + 1..];
      Some((s[..k], s[k + 1..]))
  }

  /** `str::trim_end_matches` with a string pattern: strips `suffix` again and
      again while `s` still ends with it. */
  function TrimEndMatches(s: string, suffix: string): (r: string)
    ensures suffix != [] ==> !EndsWith(r, suffix)
    ensures StartsWith(s, r)
    decreases |s|
  {
    if suffix != [] && EndsWith(s, suffix) then
      var r := TrimEndMatches(s[..|s| - |suffix|], suffix);
      assert s[..|s| - |suffix|][..|r|] == s[..|r|];
      r
    else s
  }

  /** When `c` does not occur in `a`, the first `c` of `a + [c] + b` is the one
      right after `a`. */
  lemma {:induction false} IndexOfAfterPrefix(a: string, c: char, b: string)
    requires c !in a
    ensures IndexOf(a + [c] + b, c) == Some(|a|)
  {
    if a != [] {
      assert (a + [c] + b)[1..] == a[1..] + [c] + b;
      IndexOfAfterPrefix(a[1..], c, b);
    }
  }

  /** `splitn(2, c)` undoes joining with a `c` that the left part does not contain. */
  lemma SplitOnceJoin(a: string, c: char, b: string)
    requires c !in a
    ensures SplitOnce(a + [c] + b, c) == Some((a, b))
  {
    IndexOfAfterPrefix(a, c, b);
    var s := a + [c] + b;
    assert s[..|a|] == a;
    assert s[|a| + 1..] == b;
  }

  /** A text that does not end with `suffix` is left as it is. */
  lemma TrimEndMatchesNoSuffix(s: string, suffix: string)
    requires !EndsWith(s, suffix)
    ensures TrimEndMatches(s, suffix) == s
  {
  }

  /** One more copy of the stripped suffix makes no difference. */
  lemma TrimEndMatchesAppend(s: string, suffix: string)
    requires suffix != []
    ensures TrimEndMatches(s + suffix, suffix) == TrimEndMatches(s, suffix)
  {
    var t := s + suffix;
    assert EndsWith(t, suffix);
    assert t[..|t| - |suffix|] == s;
  }

  /** The characters Rust's `char::is_whitespace` accepts (Unicode `White_Space`). */
  predicate IsWhitespace(c: char) {
    || c == '\t' || c == '\n' || c == '\U{B}' || c == '\U{C}' || c == '\r' || c == ' '
    || c == '\U{85}' || c == '\U{A0}' || c == '\U{1680}'
    || ('\U{2000}' <= c <= '\U{200A}')
    || c == '\U{2028}' || c == '\U{2029}' || c == '\U{202F}' || c == '\U{205F}' || c == '\U{3000}'
  }

  function TrimStart(s: string): (r: string)
    ensures r == [] || !IsWhitespace(r[0])
    ensures EndsWith(s, r)
    ensures forall i :: 0 <= i < |s| - |r| ==> IsWhitespace(s[i])
  {
    if s != [] && IsWhitespace(s[0]) then TrimStart(s[1..]) else s
  }

  function TrimEnd(s: string): (r: string)
    ensures r == [] || !IsWhitespace(r[|r| - 1])
    ensures StartsWith(s, r)
    ensures forall i :: |r| <= i < |s| ==> IsWhitespace(s[i])
  {
    if s != [] && IsWhitespace(s[|s| - 1]) then TrimEnd(s[..|s| - 1]) else s
  }

  /** `str::trim`: leading and trailing whitespace removed. */
  function Trim(s: string): (r: string)
    ensures r == [] || (!IsWhitespace(r[0]) && !IsWhitespace(r[|r| - 1]))
  {
    TrimStart(TrimEnd(s))
  }

  /** Every character of `w` is whitespace. */
  predicate AllWhitespace(w: string) {
    forall i :: 0 <= i < |w| ==> IsWhitespace(w[i])
  }

  /** Whitespace appended at the end is trimmed away. */
  lemma {:induction false} TrimEndAppendSpace(x: string, w: string)
    requires AllWhitespace(w)
    ensures TrimEnd(x + w) == TrimEnd(x)
    decreases |w|
  {
    if w == [] {
      assert x + w == x;
    } else {
      var w' := w[..|w| - 1];
      assert (x + w)[..|x + w| - 1] == x + w';
      TrimEndAppendSpace(x, w');
    }
  }

  /** Whitespace put in front is trimmed away. */
  lemma {:induction false} TrimStartPrependSpace(w: string, y: string)
    requires AllWhitespace(w)
    ensures TrimStart(w + y) == TrimStart(y)
    decreases |w|
  {
    if w == [] {
      assert w + y == y;
    } else {
      assert (w + y)[1..] == w[1..] + y;
      TrimStartPrependSpace(w[1..], y);
    }
  }

  /** Trimming the end of `w + y`, for whitespace `w`, keeps `w` in front of what
      is left of `y`, unless nothing is. */
  lemma {:induction false} TrimEndAfterSpace(w: string, y: string)
    requires AllWhitespace(w)
    ensures TrimEnd(w + y) == if TrimEnd(y) == [] then [] else w + TrimEnd(y)
    decreases |y|
  {
    if y == [] {
      assert w + y == w;
    } else if IsWhitespace(y[|y| - 1]) {
      var y' := y[..|y| - 1];
      assert (w + y)[..|w + y| - 1] == w + y';
      TrimEndAfterSpace(w, y');
    } else {
      assert (w + y)[|w + y| - 1] == y[|y| - 1];
    }
  }

  /** `str::trim` ignores whitespace padding on either side. */
  lemma TrimPadded(ws1: string, u: string, ws2: string)
    requires AllWhitespace(ws1) && AllWhitespace(ws2)
    ensures Trim(ws1 + u + ws2) == Trim(u)
  {
    TrimEndAppendSpace(ws1 + u, ws2);
    TrimEndAfterSpace(ws1, u);
    if TrimEnd(u) != [] {
      TrimStartPrependSpace(ws1, TrimEnd(u));
    }
  }

  /** What follows `line` in `s` ends it: nothing, a line feed not preceded by a
      carriage return, or a carriage return and line feed. Together with
      `'\n' !in line` this makes `line` the whole first line. */
  predicate LineEndsAt(s: string, line: string)
    requires |line| <= |s|
  {
    var rest := s[|line|..];
    rest == [] || (rest[0] == '\n' && !EndsWith(line, "\r")) || (|rest| >= 2 && rest[..2] == "\r\n")
  }

  /** `s.lines().next()`: the text up to the first line feed, without a carriage
      return that directly precedes that line feed; `None` for the empty string. */
  function FirstLine(s: string): (r: Option<string>)
    ensures r.None? <==> s == []
    ensures r.Some? ==> StartsWith(s, r.value) && '\n' !in r.value
    ensures r.Some? ==> LineEndsAt(s, r.value)
  {
    if s == [] then None
    else
      var line := match IndexOf(s, '\n')
        case None => s
        case Some(k) => if 0 < k && s[k - 1] == '\r' then s[..k - 1] else s[..k];
      Some(line)
  }

  /** The `Ord` of `str`: lexicographic, a proper prefix first. */
  predicate Less(a: string, b: string) {
    if a == [] then b != []
    else if b == [] then false
    else if a[0] != b[0] then a[0] < b[0]
    else Less(a[1..], b[1..])
  }

  lemma {:induction false} LessIrreflexive(a: string)
    ensures !Less(a, a)
  {
    if a != [] { LessIrreflexive(a[1..]); }
  }

  lemma {:induction false} LessTransitive(a: string, b: string, c: string)
    requires Less(a, b) && Less(b, c)
    ensures Less(a, c)
  {
    if a != [] && b != [] && c != [] && a[0] == b[0] && b[0] == c[0] {
      LessTransitive(a[1..], b[1..], c[1..]);
    }
  }

  lemma {:induction false} LessTotal(a: string, b: string)
    requires a != b
    ensures Less(a, b) || Less(b, a)
  {
    if a != [] && b != [] && a[0] == b[0] {
      assert a == [a[0]] + a[1..] && b == [b[0]] + b[1..];
      LessTotal(a[1..], b[1..]);
    }
  }

  lemma {:induction false} LessAsymmetric(a: string, b: string)
    requires Less(a, b)
    ensures !Less(b, a)
  {
    if a != [] && b != [] && a[0] == b[0] {
      LessAsymmetric(a[1..], b[1..]);
    }
  }
}
