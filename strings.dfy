/**
 * The java.lang.String operations the scripts and test drivers rely on, on `seq<char>`.
 * Indices are positions in the sequence of characters; Java counts UTF-16 code units,
 * so the two agree on text without supplementary characters (README, "Left out").
 */
module Strings {

  predicate IsPrefix(p: string, s: string) {
    |p| <= |s| && s[..|p|] == p
  }

  predicate IsSuffix(p: string, s: string) {
    |p| <= |s| && s[|s| - |p|..] == p
  }

  /** `s.contains(sub)`: some suffix of `s` starts with `sub`. */
  predicate Contains(s: string, sub: string)
    decreases |s|
  {
    IsPrefix(sub, s) || (|s| > 0 && Contains(s[1..], sub))
  }

  lemma {:induction false} ContainsAt(s: string, sub: string, i: nat)
    requires i <= |s| && IsPrefix(sub, s[i..])
    ensures Contains(s, sub)
    decreases i
  {
    if i > 0 {
      assert s[1..][i - 1..] == s[i..];
      ContainsAt(s[1..], sub, i - 1);
    }
  }

  /** An occurrence has a position. */
  lemma {:induction false} ContainsWitness(s: string, sub: string)
    requires Contains(s, sub)
    ensures exists i :: 0 <= i <= |s| && IsPrefix(sub, s[i..])
    decreases |s|
  {
    if IsPrefix(sub, s) {
      assert s[0..] == s;
    } else {
      ContainsWitness(s[1..], sub);
      var i :| 0 <= i <= |s[1..]| && IsPrefix(sub, s[1..][i..]);
      assert s[1..][i..] == s[i + 1..];
    }
  }

  /** Without an occurrence, no position starts one. */
  lemma {:induction false} NotContainsAt(s: string, sub: string, i: nat)
    requires i <= |s| && !Contains(s, sub)
    ensures !IsPrefix(sub, s[i..])
    decreases i
  {
    if i == 0 {
      assert s[0..] == s;
    } else {
      assert s[1..][i - 1..] == s[i..];
      NotContainsAt(s[1..], sub, i - 1);
    }
  }

  /** No position starts an occurrence, so there is none. */
  lemma {:induction false} NoWitnessNoContains(s: string, sub: string)
    requires forall i :: 0 <= i <= |s| ==> !IsPrefix(sub, s[i..])
    ensures !Contains(s, sub)
    decreases |s|
  {
    assert s[0..] == s;
    if |s| > 0 {
      forall i | 0 <= i <= |s[1..]|
        ensures !IsPrefix(sub, s[1..][i..])
      {
        assert s[1..][i..] == s[i + 1..];
      }
      NoWitnessNoContains(s[1..], sub);
    }
  }

  /** `s.indexOf(sub)`: the first position where `sub` starts, or -1. */
  function IndexOf(s: string, sub: string): (r: int)
    ensures -1 <= r <= |s|
    ensures r == -1 <==> !Contains(s, sub)
    ensures r >= 0 ==> IsPrefix(sub, s[r..])
    ensures r >= 0 ==> forall j :: 0 <= j < r ==> !IsPrefix(sub, s[j..])
    decreases |s|
  {
    if IsPrefix(sub, s) then 0
    else if |s| == 0 then -1
    else
      var k := IndexOf(s[1..], sub);
      if k == -1 then -1
      else
        assert s[k + 1..] == s[1..][k..];
        assert forall j :: 1 <= j < k + 1 ==> s[j..] == s[1..][j - 1..];
        k + 1
  }

  /** `s.indexOf(c)` for a character: the first position of `c`, or -1. */
  function IndexOfChar(s: string, c: char): (r: int)
    ensures -1 <= r < |s|
    ensures r == -1 <==> c !in s
    ensures r >= 0 ==> r < |s| && s[r] == c && c !in s[..r]
    decreases |s|
  {
    if |s| == 0 then -1
    else if s[0] == c then 0
    else
      var k := IndexOfChar(s[1..], c);
      if k == -1 then -1
      else
        assert s[..k + 1] == [s[0]] + s[1..][..k];
        k + 1
  }

  /** A `c` with none before it is the one `indexOf` finds. */
  lemma {:induction false} IndexOfCharAt(s: string, c: char, i: nat)
    requires i < |s| && s[i] == c
    requires forall k :: 0 <= k < i ==> s[k] != c
    ensures IndexOfChar(s, c) == i
    decreases i
  {
    if i > 0 {
      IndexOfCharAt(s[1..], c, i - 1);
    }
  }

  /** `s.lastIndexOf(c)`: the last position of `c`, or -1. */
  function LastIndexOfChar(s: string, c: char): (r: int)
    ensures -1 <= r < |s|
    ensures r == -1 <==> c !in s
    ensures r >= 0 ==> r < |s| && s[r] == c && c !in s[r + 1..]
    decreases |s|
  {
    if |s| == 0 then -1
    else if s[|s| - 1] == c then |s| - 1
    else
      var k := LastIndexOfChar(s[..|s| - 1], c);
      assert s == s[..|s| - 1] + [s[|s| - 1]];
      if k == -1 then -1
      else
        assert s[k + 1..] == s[..|s| - 1][k + 1..] + [s[|s| - 1]];
        k
  }

  /** A `c` with none after it is the one `lastIndexOf` finds. */
  lemma {:induction false} LastIndexOfCharAt(s: string, c: char, i: nat)
    requires i < |s| && s[i] == c
    requires forall k :: i < k < |s| ==> s[k] != c
    ensures LastIndexOfChar(s, c) == i
    decreases |s|
  {
    if i < |s| - 1 {
      LastIndexOfCharAt(s[..|s| - 1], c, i);
    }
  }

  /** The last `c` of `a + b`, when `b` starts with the only one it holds, is where `b` starts. */
  lemma LastIndexOfCharSuffix(a: string, b: string, c: char)
    requires |b| > 0 && b[0] == c && c !in b[1..]
    ensures LastIndexOfChar(a + b, c) == |a| && (a + b)[|a|..] == b
  {
    var s := a + b;
    forall k | |a| < k < |s|
      ensures s[k] != c
    {
      assert s[k] == b[1..][k - |a| - 1];
    }
    LastIndexOfCharAt(s, c, |a|);
  }

  // ---------------------------------------------------------------------------
  // Literal replace-all: `String.replace(CharSequence, CharSequence)`, and
  // `replaceAll` when the pattern has no metacharacter and the replacement
  // no `$` or `\`. Scans left to right and replaces non-overlapping matches.
  // ---------------------------------------------------------------------------

  function ReplaceAll(s: string, pat: string, rep: string): string
    requires |pat| > 0
    decreases |s|
  {
    if |s| < |pat| then s
    else if IsPrefix(pat, s) then rep + ReplaceAll(s[|pat|..], pat, rep)
    else [s[0]] + ReplaceAll(s[1..], pat, rep)
  }

  /** The number of matches the left-to-right scan of ReplaceAll replaces. */
  function MatchCount(s: string, pat: string): nat
    requires |pat| > 0
    decreases |s|
  {
    if |s| < |pat| then 0
    else if IsPrefix(pat, s) then 1 + MatchCount(s[|pat|..], pat)
    else MatchCount(s[1..], pat)
  }

  lemma MulSucc(d: int, m: nat)
    ensures d * (1 + m) == d + d * m
  {
  }

  lemma {:induction false} ReplaceAllLength(s: string, pat: string, rep: string)
    requires |pat| > 0
    ensures |ReplaceAll(s, pat, rep)| == |s| + (|rep| - |pat|) * MatchCount(s, pat)
    decreases |s|
  {
    if |s| < |pat| {
    } else if IsPrefix(pat, s) {
      var t := s[|pat|..];
      ReplaceAllLength(t, pat, rep);
      assert |ReplaceAll(s, pat, rep)| == |rep| + |ReplaceAll(t, pat, rep)|;
      assert MatchCount(s, pat) == 1 + MatchCount(t, pat);
      MulSucc(|rep| - |pat|, MatchCount(t, pat));
    } else {
      ReplaceAllLength(s[1..], pat, rep);
    }
  }

  /** The scan finds a match exactly when the pattern occurs. */
  lemma {:induction false} MatchCountZero(s: string, pat: string)
    requires |pat| > 0
    ensures MatchCount(s, pat) == 0 <==> !Contains(s, pat)
    decreases |s|
  {
    if |s| < |pat| {
      NoRoomNoContains(s, pat);
    } else if IsPrefix(pat, s) {
    } else {
      MatchCountZero(s[1..], pat);
    }
  }

  lemma {:induction false} NoRoomNoContains(s: string, sub: string)
    requires |s| < |sub|
    ensures !Contains(s, sub)
    decreases |s|
  {
    if |s| > 0 {
      NoRoomNoContains(s[1..], sub);
    }
  }

  /** Without an occurrence of the pattern, ReplaceAll returns its input. */
  lemma {:induction false} ReplaceAllNoMatch(s: string, pat: string, rep: string)
    requires |pat| > 0 && !Contains(s, pat)
    ensures ReplaceAll(s, pat, rep) == s
    decreases |s|
  {
    if |s| >= |pat| {
      assert s == [s[0]] + s[1..];
      ReplaceAllNoMatch(s[1..], pat, rep);
    }
  }

  /**
   * A prefix of the output without the replacement's first character is copied
   * unchanged from the input: the scan cannot have replaced anything there.
   */
  lemma {:induction false} OutputPrefixFromInput(t: string, w: string, pat: string, rep: string)
    requires |pat| > 0 && |rep| > 0
    requires rep[0] !in w
    ensures IsPrefix(w, ReplaceAll(t, pat, rep)) ==> IsPrefix(w, t)
    decreases |t|
  {
    var r := ReplaceAll(t, pat, rep);
    if |w| == 0 || |t| < |pat| {
    } else if IsPrefix(pat, t) {
      assert r[0] == rep[0];
      assert w[0] != rep[0];
    } else {
      var tail := ReplaceAll(t[1..], pat, rep);
      assert r == [t[0]] + tail;
      OutputPrefixFromInput(t[1..], w[1..], pat, rep);
      if IsPrefix(w, r) {
        assert w[0] == t[0];
        assert tail[..|w| - 1] == w[1..];
        assert t == [t[0]] + t[1..];
      }
    }
  }

  /** A non-empty `p` is a prefix of `[x] + u` exactly when it starts with `x` and the rest is a prefix of `u`. */
  lemma PrefixOfCons(p: string, x: char, u: string)
    requires |p| > 0
    ensures IsPrefix(p, [x] + u) <==> p[0] == x && IsPrefix(p[1..], u)
  {
    if |p| <= |u| + 1 {
      assert ([x] + u)[..|p|] == [x] + u[..|p| - 1];
      assert p == [p[0]] + p[1..];
    }
  }

  /** `a + b` has no occurrence when none starts inside `a` and `b` has none. */
  lemma {:induction false} ContainsConcat(a: string, b: string, sub: string)
    requires forall i :: 0 <= i < |a| ==> !IsPrefix(sub, (a + b)[i..])
    requires !Contains(b, sub)
    ensures !Contains(a + b, sub)
    decreases |a|
  {
    if |a| == 0 {
      assert a + b == b;
    } else {
      assert !IsPrefix(sub, (a + b)[0..]);
      assert (a + b)[1..] == a[1..] + b;
      forall i | 0 <= i < |a| - 1
        ensures !IsPrefix(sub, (a[1..] + b)[i..])
      {
        assert (a[1..] + b)[i..] == (a + b)[i + 1..];
      }
      ContainsConcat(a[1..], b, sub);
    }
  }

  /** Conditions under which no occurrence of the pattern survives: see ReplaceAllRemovesPattern. */
  predicate RemovesPattern(pat: string, rep: string) {
    && |pat| > 0
    && |rep| >= |pat|
    && rep[..|pat|] != pat
    && pat[0] !in pat[1..]
    && pat[0] !in rep[1..]
    && rep[0] !in pat[1..]
  }

  /**
   * The output of ReplaceAll holds no occurrence of the pattern when the
   * pattern cannot overlap itself or the replacement (RemovesPattern).
   */
  lemma {:induction false} ReplaceAllRemovesPattern(s: string, pat: string, rep: string)
    requires RemovesPattern(pat, rep)
    ensures !Contains(ReplaceAll(s, pat, rep), pat)
    decreases |s|
  {
    var r := ReplaceAll(s, pat, rep);
    if |s| < |pat| {
      NoRoomNoContains(s, pat);
    } else if IsPrefix(pat, s) {
      var tail := ReplaceAll(s[|pat|..], pat, rep);
      ReplaceAllRemovesPattern(s[|pat|..], pat, rep);
      forall i | 0 <= i < |rep|
        ensures !IsPrefix(pat, (rep + tail)[i..])
      {
        if i == 0 {
          assert (rep + tail)[..|pat|] == rep[..|pat|];
        } else {
          assert (rep + tail)[i..][0] == rep[i];
          assert rep[i] in rep[1..];
        }
      }
      ContainsConcat(rep, tail, pat);
    } else {
      var tail := ReplaceAll(s[1..], pat, rep);
      ReplaceAllRemovesPattern(s[1..], pat, rep);
      assert r == [s[0]] + tail;
      OutputPrefixFromInput(s[1..], pat[1..], pat, rep);
      PrefixOfCons(pat, s[0], tail);
      PrefixOfCons(pat, s[0], s[1..]);
      assert s == [s[0]] + s[1..];
    }
  }

  // ---------------------------------------------------------------------------
  // `String.split(",")` for a separator that is a single ordinary character.
  // ---------------------------------------------------------------------------

  /** The fields between the separators, trailing empty fields included. */
  function Fields(s: string, sep: char): (r: seq<string>)
    ensures |r| > 0
    ensures forall k :: 0 <= k < |r| ==> sep !in r[k]
    decreases |s|
  {
    var k := IndexOfChar(s, sep);
    if k < 0 then [s]
    else
      var rest := Fields(s[k + 1..], sep);
      assert forall j :: 1 <= j < |rest| + 1 ==> ([s[..k]] + rest)[j] == rest[j - 1];
      [s[..k]] + rest
  }

  /** Rebuilds a string from its fields. */
  function JoinWith(fs: seq<string>, sep: char): string
    requires |fs| > 0
  {
    if |fs| == 1 then fs[0] else fs[0] + [sep] + JoinWith(fs[1..], sep)
  }

  lemma {:induction false} FieldsJoin(s: string, sep: char)
    ensures JoinWith(Fields(s, sep), sep) == s
    decreases |s|
  {
    var k := IndexOfChar(s, sep);
    if k >= 0 {
      FieldsJoin(s[k + 1..], sep);
      assert s == s[..k] + [sep] + s[k + 1..];
    }
  }

  function DropTrailingEmpty(fs: seq<string>): (r: seq<string>)
    ensures |r| <= |fs| && r == fs[..|r|]
    ensures |r| > 0 ==> r[|r| - 1] != ""
    ensures forall k :: |r| <= k < |fs| ==> fs[k] == ""
  {
    if |fs| > 0 && fs[|fs| - 1] == "" then DropTrailingEmpty(fs[..|fs| - 1]) else fs
  }

  /** `s.split(sep)`: no separator gives `[s]`; otherwise the fields without the trailing empty ones. */
  function JavaSplit(s: string, sep: char): seq<string> {
    if sep !in s then [s] else DropTrailingEmpty(Fields(s, sep))
  }

  // ---------------------------------------------------------------------------
  // Character classes, `trim`, `replaceAll("\\s", "")` and ASCII case mapping.
  // ---------------------------------------------------------------------------

  /** A character of the regular-expression class `\s`: space, \t, \n, \x0B, \f, \r. */
  predicate IsRegexSpace(c: char) {
    c == ' ' || c == '\t' || c == '\n' || c as int == 11 || c as int == 12 || c == '\r'
  }

  /** `s.replaceAll("\\s", "")`. */
  function RemoveWhitespace(s: string): (r: string)
    ensures forall k :: 0 <= k < |r| ==> !IsRegexSpace(r[k])
    ensures |r| <= |s|
  {
    if |s| == 0 then ""
    else (if IsRegexSpace(s[0]) then "" else [s[0]]) + RemoveWhitespace(s[1..])
  }

  lemma {:induction false} RemoveWhitespaceNoSpace(s: string)
    requires forall k :: 0 <= k < |s| ==> !IsRegexSpace(s[k])
    ensures RemoveWhitespace(s) == s
  {
    if |s| > 0 {
      RemoveWhitespaceNoSpace(s[1..]);
    }
  }

  /** `String.trim`: drops leading and trailing characters up to U+0020. */
  function TrimStart(s: string): (r: string)
    ensures IsSuffix(r, s)
    ensures |r| > 0 ==> r[0] > ' '
  {
    if |s| > 0 && s[0] <= ' ' then TrimStart(s[1..]) else s
  }

  function TrimEnd(s: string): (r: string)
    ensures IsPrefix(r, s)
    ensures |r| > 0 ==> r[|r| - 1] > ' '
  {
    if |s| > 0 && s[|s| - 1] <= ' ' then TrimEnd(s[..|s| - 1]) else s
  }

  function Trim(s: string): string {
    TrimEnd(TrimStart(s))
  }

  predicate IsAscii(s: string) {
    forall k :: 0 <= k < |s| ==> s[k] as int < 128
  }

  function LowerChar(c: char): char {
    if 'A' <= c <= 'Z' then (c as int + 32) as char else c
  }

  function UpperChar(c: char): char {
    if 'a' <= c <= 'z' then (c as int - 32) as char else c
  }

  /** `toLowerCase` restricted to ASCII. */
  function Lower(s: string): (r: string)
    ensures |r| == |s| && forall k :: 0 <= k < |s| ==> r[k] == LowerChar(s[k])
  {
    seq(|s|, k requires 0 <= k < |s| => LowerChar(s[k]))
  }

  /** `toUpperCase` restricted to ASCII. */
  function Upper(s: string): (r: string)
    ensures |r| == |s| && forall k :: 0 <= k < |s| ==> r[k] == UpperChar(s[k])
  {
    seq(|s|, k requires 0 <= k < |s| => UpperChar(s[k]))
  }

  /** `a.equalsIgnoreCase(b)` restricted to ASCII. */
  predicate EqualsIgnoreCase(a: string, b: string) {
    Lower(a) == Lower(b)
  }
}
