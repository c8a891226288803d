/**
 * The string helpers and the error classification of the XQuery 1.0 test
 * suite driver (ee/XQuery10TestSuiteDriver.java). Running queries,
 * canonicalising XML and writing the results stream are left out:
 * `processError` appends the entries it would write to a list.
 */
module XQuery10Driver {
  import opened Wrappers
  import opened Strings

  /** Tests whose names start with `dotnet` are skipped. */
  predicate IsExcluded(testName: string) {
    IsPrefix("dotnet", testName)
  }

  lemma IsExcludedCases()
    ensures IsExcluded("dotnet-1") && IsExcluded("dotnet")
    ensures !IsExcluded("dotne") && !IsExcluded("xdotnet") && !IsExcluded("")
  {
    assert "dotnet-1"[..6] == "dotnet";
    assert "xdotnet"[0] != "dotnet"[0];
  }

  // ---------------------------------------------------------------------------
  // toClarkName
  // ---------------------------------------------------------------------------

  const LocalPrefix: string := "local:"
  const LocalFunctionsUri: string := "http://www.w3.org/2005/xquery-local-functions"
  /** The namespace of `local:` functions in Clark notation: the URI in braces. */
  const LocalNamespace: string := "{" + LocalFunctionsUri + "}"

  /**
   * `toClarkName`: a `local:` name is rewritten into the local-functions
   * namespace in Clark notation; any other name, and `null`, is kept.
   */
  function ToClarkName(variableName: Option<string>): (r: Option<string>)
    ensures r.None? <==> variableName.None?
    ensures variableName.Some? && IsPrefix(LocalPrefix, variableName.value) ==>
      r.value == LocalNamespace + variableName.value[|LocalPrefix|..]
    ensures variableName.Some? && !IsPrefix(LocalPrefix, variableName.value) ==>
      r == variableName
  {
    match variableName
    case None => None
    case Some(v) =>
      if IsPrefix(LocalPrefix, v) then Some(LocalNamespace + v[6..]) else Some(v)
  }

  /** A name already in Clark notation is kept, so converting twice is converting once. */
  lemma ToClarkNameIdempotent(variableName: Option<string>)
    ensures ToClarkName(ToClarkName(variableName)) == ToClarkName(variableName)
  {
    if variableName.Some? && IsPrefix(LocalPrefix, variableName.value) {
      var r := ToClarkName(variableName).value;
      assert r == LocalNamespace + variableName.value[6..];
      assert r[0] == LocalNamespace[0] == '{';
      assert r[..6][0] == '{' != LocalPrefix[0];
    }
  }

  /** The local part survives: the result ends with what followed `local:`. */
  lemma ToClarkNameKeepsLocalPart(local: string)
    ensures ToClarkName(Some(LocalPrefix + local)) == Some(LocalNamespace + local)
  {
    var v := LocalPrefix + local;
    assert IsPrefix(LocalPrefix, v);
    assert v[6..] == local;
  }

  // ---------------------------------------------------------------------------
  // String normalisers
  // ---------------------------------------------------------------------------

  /** `normalizeNewlines`: every CRLF pair becomes a single LF. */
  function NormalizeNewlines(s: string): string {
    ReplaceAll(s, "\r\n", "\n")
  }

  /** One character is dropped per CRLF pair replaced. */
  lemma NormalizeNewlinesLength(s: string)
    ensures |NormalizeNewlines(s)| == |s| - MatchCount(s, "\r\n")
  {
    ReplaceAllLength(s, "\r\n", "\n");
  }

  /** A string with no carriage return comes back unchanged. */
  lemma NormalizeNewlinesNoCr(s: string)
    requires '\r' !in s
    ensures NormalizeNewlines(s) == s
  {
    forall i | 0 <= i <= |s|
      ensures !IsPrefix("\r\n", s[i..])
    {
      if i < |s| {
        assert s[i..][0] == s[i];
      }
    }
    NoWitnessNoContains(s, "\r\n");
    ReplaceAllNoMatch(s, "\r\n", "\n");
  }

  /**
   * One pass is not a fixed point: in `\r\r\n` only the second `\r` starts
   * a pair, and removing it leaves a new pair behind.
   */
  lemma NormalizeNewlinesOnePass()
    ensures NormalizeNewlines("a\r\nb") == "a\nb"
    ensures NormalizeNewlines("\r\r\n") == "\r\n"
    ensures NormalizeNewlines("\r\n") == "\n"
  {
    var crlf := "\r\n";
    assert ReplaceAll("", crlf, "\n") == "";
    assert ReplaceAll("b", crlf, "\n") == "b";
    assert IsPrefix(crlf, crlf) && crlf[2..] == "";
    assert ReplaceAll(crlf, crlf, "\n") == "\n";
    assert IsPrefix(crlf, "\r\nb") && "\r\nb"[2..] == "b";
    assert ReplaceAll("\r\nb", crlf, "\n") == "\nb";
    assert "a\r\nb"[..2][0] == 'a';
    assert !IsPrefix(crlf, "a\r\nb") && "a\r\nb"[1..] == "\r\nb";
    assert ReplaceAll("a\r\nb", crlf, "\n") == "a\nb";
    assert "\r\r\n"[..2][1] == '\r';
    assert !IsPrefix(crlf, "\r\r\n") && "\r\r\n"[1..] == crlf;
    assert ReplaceAll("\r\r\n", crlf, "\n") == "\r\n";
  }

  /** `truncate`: at most the first 200 characters. */
  function Truncate(s: string): (r: string)
    ensures IsPrefix(r, s)
    ensures |r| == if |s| > 200 then 200 else |s|
  {
    if |s| > 200 then s[..200] else s
  }

  /** Strings of at most 200 characters are kept whole, and truncating twice is truncating once. */
  lemma TruncateShort(s: string)
    ensures |s| <= 200 ==> Truncate(s) == s
    ensures Truncate(Truncate(s)) == Truncate(s)
  {
  }

  /** The characters `lowercase` keeps: ASCII lower-case letters and digits. */
  predicate IsClassChar(c: char) {
    ('a' <= c <= 'z') || ('0' <= c <= '9')
  }

  /** The class characters of `s`, in order. */
  function KeepClassChars(s: string): (r: string)
    decreases |s|
  {
    if |s| == 0 then ""
    else KeepClassChars(s[..|s| - 1]) + (if IsClassChar(s[|s| - 1]) then [s[|s| - 1]] else "")
  }

  /** `lowercase(name)`, as a value: lower-case the name, then keep letters and digits. */
  function LowercaseSpec(name: string): string {
    KeepClassChars(Lower(name))
  }

  /** Only class characters are left, no more than there were, and a string of them is kept. */
  lemma {:induction false} KeepClassCharsProps(s: string)
    ensures |KeepClassChars(s)| <= |s|
    ensures forall k :: 0 <= k < |KeepClassChars(s)| ==> IsClassChar(KeepClassChars(s)[k])
    ensures (forall k :: 0 <= k < |s| ==> IsClassChar(s[k])) ==> KeepClassChars(s) == s
    decreases |s|
  {
    if |s| > 0 {
      var p := s[..|s| - 1];
      KeepClassCharsProps(p);
      assert forall k :: 0 <= k < |p| ==> p[k] == s[k];
      assert p + [s[|s| - 1]] == s;
    }
  }

  /** Class characters are already lower case. */
  lemma LowerOfClassChars(s: string)
    requires forall k :: 0 <= k < |s| ==> IsClassChar(s[k])
    ensures Lower(s) == s
  {
  }

  /** `lowercase` is idempotent, and what it returns is made of letters `a`-`z` and digits only. */
  lemma LowercaseIdempotent(name: string)
    ensures forall k :: 0 <= k < |LowercaseSpec(name)| ==> IsClassChar(LowercaseSpec(name)[k])
    ensures LowercaseSpec(LowercaseSpec(name)) == LowercaseSpec(name)
  {
    var r := LowercaseSpec(name);
    KeepClassCharsProps(Lower(name));
    LowerOfClassChars(r);
    KeepClassCharsProps(r);
  }

  /** Upper-case letters are kept as their lower-case forms; other characters are dropped. */
  lemma LowercaseExample()
    ensures LowercaseSpec("A-1") == "a1"
  {
    var s := Lower("A-1");
    assert s[0] == 'a' && s[1] == '-' && s[2] == '1';
    assert s == "a-1";
    assert s[..2] == "a-" && s[..1] == "a" && s[..0] == "";
    assert KeepClassChars(s[..1]) == "a";
    assert KeepClassChars(s[..2]) == "a";
    assert KeepClassChars(s) == KeepClassChars(s[..2]) + "1";
  }

  /** `lowercase(name)`: the loop over the lower-cased name. */
  method Lowercase(name: string) returns (r: string)
    ensures r == LowercaseSpec(name)
  {
    var sb := "";
    var lname := Lower(name);
    var p := 0;
    while p < |lname|
      invariant 0 <= p <= |lname|
      invariant sb == KeepClassChars(lname[..p])
    {
      var c := lname[p];
      assert lname[..p + 1][..p] == lname[..p];
      if IsClassChar(c) {
        sb := sb + [c];
      }
      p := p + 1;
    }
    assert lname[..p] == lname;
    r := sb;
  }

  /** The class part of `makeClassName`: first character upper-cased, the rest lower-cased. */
  function Capitalized(mainName: string): (r: string)
    requires |mainName| > 0
  {
    Upper(mainName[..1]) + Lower(mainName[1..])
  }

  /** `makeClassName(groupName, mainName)`; `substring(0, 1)` throws on an empty `mainName`. */
  function MakeClassName(groupName: string, mainName: string): (r: string)
    requires |mainName| > 0
  {
    groupName + "." + Capitalized(mainName)
  }

  /**
   * The group name, a dot, then the main name with the same length, its
   * first character upper-cased and every other one lower-cased.
   */
  lemma MakeClassNameShape(groupName: string, mainName: string)
    requires |mainName| > 0
    ensures var r := MakeClassName(groupName, mainName);
      && |r| == |groupName| + 1 + |mainName|
      && r[..|groupName|] == groupName && r[|groupName|] == '.'
      && r[|groupName| + 1] == UpperChar(mainName[0])
      && forall k :: 1 <= k < |mainName| ==> r[|groupName| + 1 + k] == LowerChar(mainName[k])
  {
    var r := MakeClassName(groupName, mainName);
    var c := Capitalized(mainName);
    assert r == groupName + ("." + c);
    assert forall k :: 1 <= k < |mainName| ==> c[k] == Lower(mainName[1..])[k - 1];
  }

  /** Names that differ only in the case of their letters give the same class name. */
  lemma MakeClassNameStable(groupName: string, mainName: string)
    requires |mainName| > 0
    ensures MakeClassName(groupName, Capitalized(mainName)) == MakeClassName(groupName, mainName)
  {
    var c := Capitalized(mainName);
    assert c[..1] == Upper(mainName[..1]);
    assert c[1..] == Lower(mainName[1..]);
    assert Capitalized(c) == c;
  }

  // ---------------------------------------------------------------------------
  // compareFragments2: preparing the two fragments
  // ---------------------------------------------------------------------------

  const XmlDeclStart: string := "<?xml"
  const DocOpen: string := "<?xml version='1.1'?><doc>"
  const DocClose: string := "</doc>"

  /**
   * A fragment without its leading declaration: the text after the first
   * `?>`. When there is no `?>`, `indexOf` gives -1 and only the first
   * character is dropped.
   */
  function StripDeclaration(f: string): (r: string)
    ensures !IsPrefix(XmlDeclStart, f) ==> r == f
    ensures IsSuffix(r, f)
  {
    if IsPrefix(XmlDeclStart, f) then
      var x := IndexOf(f, "?>");
      if x == -1 then f[1..] else f[x + 2..]
    else f
  }

  /** The document one fragment is wrapped into; `null` counts as the empty fragment. */
  function WrapFragment(fragment: Option<string>): string {
    var f := if fragment.None? then "" else fragment.value;
    DocOpen + Trim(StripDeclaration(f)) + DocClose
  }

  /** The first `?>` of `decl + "?>" + rest` is the one after `decl` when `decl` holds none. */
  lemma FirstClose(decl: string, rest: string)
    requires !Contains(decl, "?>")
    ensures IndexOf(decl + "?>" + rest, "?>") == |decl|
  {
    var s := decl + "?>" + rest;
    assert s[|decl|..][..2] == "?>";
    ContainsAt(s, "?>", |decl|);
    forall j | 0 <= j < |decl|
      ensures !IsPrefix("?>", s[j..])
    {
      if j < |decl| - 1 {
        assert decl[j..][..2] == s[j..][..2];
        NotContainsAt(decl, "?>", j);
      } else {
        assert s[j..][1] == s[|decl|] == '?';
      }
    }
  }

  /** With a declaration that ends at its own `?>`, the text after it is what gets wrapped. */
  lemma DeclarationStripped(decl: string, rest: string)
    requires IsPrefix(XmlDeclStart, decl) && !Contains(decl, "?>")
    ensures WrapFragment(Some(decl + "?>" + rest)) == DocOpen + Trim(rest) + DocClose
  {
    var s := decl + "?>" + rest;
    assert s[..5] == decl[..5];
    FirstClose(decl, rest);
    assert s[|decl| + 2..] == rest;
    assert StripDeclaration(s) == rest;
    assert WrapFragment(Some(s)) == DocOpen + Trim(StripDeclaration(s)) + DocClose;
  }

  /** A declaration that is never closed loses only its first character. */
  lemma UnclosedDeclaration(f: string)
    requires IsPrefix(XmlDeclStart, f) && !Contains(f, "?>")
    ensures WrapFragment(Some(f)) == DocOpen + Trim(f[1..]) + DocClose
  {
  }

  /** Without a declaration the trimmed fragment is wrapped as it is; `null` gives an empty `doc`. */
  lemma PlainFragment(f: string)
    requires !IsPrefix(XmlDeclStart, f)
    ensures WrapFragment(Some(f)) == DocOpen + Trim(f) + DocClose
    ensures WrapFragment(None) == DocOpen + DocClose
  {
    assert StripDeclaration(f) == f;
    assert WrapFragment(Some(f)) == DocOpen + Trim(StripDeclaration(f)) + DocClose;
    assert !IsPrefix(XmlDeclStart, "");
    assert Trim("") == "";
    assert WrapFragment(None) == DocOpen + Trim("") + DocClose;
    assert DocOpen + "" == DocOpen;
  }

  // ---------------------------------------------------------------------------
  // processError: classifying a static or dynamic error
  // ---------------------------------------------------------------------------

  /** `specVersion`, unless set on the command line. */
  const DefaultSpecVersion: string := "3.0"

  /** One `expected-error` of a test case: its code and its optional `spec-version`. */
  datatype ExpectedError = ExpectedError(code: string, appliesTo: Option<string>)

  /** An expected error whose `spec-version` is absent or mentions the version under test. */
  predicate Applies(e: ExpectedError, specVersion: string) {
    e.appliesTo.None? || Contains(e.appliesTo.value, specVersion)
  }

  /** An exact code match, or the wildcard `*`. */
  predicate Matches(e: ExpectedError, actualError: string) {
    e.code == actualError || e.code == "*"
  }

  /** The applicable codes, each followed by a space, in document order. */
  function Listed(errs: seq<ExpectedError>, specVersion: string): string
    decreases |errs|
  {
    if |errs| == 0 then ""
    else
      var e := errs[|errs| - 1];
      Listed(errs[..|errs| - 1], specVersion) + (if Applies(e, specVersion) then e.code + " " else "")
  }

  /** Some applicable expected error matches the actual one. */
  predicate AnyMatch(errs: seq<ExpectedError>, specVersion: string, actualError: string)
    decreases |errs|
  {
    && |errs| > 0
    && (|| AnyMatch(errs[..|errs| - 1], specVersion, actualError)
        || (Applies(errs[|errs| - 1], specVersion) && Matches(errs[|errs| - 1], actualError)))
  }

  /** AnyMatch holds exactly when some position holds an applicable, matching error. */
  lemma {:induction false} AnyMatchWitness(errs: seq<ExpectedError>, specVersion: string, actualError: string)
    ensures AnyMatch(errs, specVersion, actualError) <==>
      exists k :: 0 <= k < |errs| && Applies(errs[k], specVersion) && Matches(errs[k], actualError)
    decreases |errs|
  {
    if |errs| > 0 {
      var p := errs[..|errs| - 1];
      AnyMatchWitness(p, specVersion, actualError);
      assert forall k :: 0 <= k < |p| ==> p[k] == errs[k];
    }
  }
  /** What gets written for a test case that raised an error. */
  datatype Verdict =
    | Pass                      // an expected error was raised
    | PassWithComment(comment: string)  // some other error than the ones expected
    | Fail(comment: string)     // success was expected

  /** The classification `processError` makes. */
  function Classify(errs: seq<ExpectedError>, specVersion: string, actualError: string): Verdict {
    if AnyMatch(errs, specVersion, actualError) then Pass
    else
      var expected := Listed(errs, specVersion);
      if |expected| > 0 then PassWithComment("expected " + expected + ", got " + actualError)
      else Fail("expected success, got " + actualError)
  }

  /** The codes are listed exactly when some expected error applies. */
  lemma {:induction false} ListedEmpty(errs: seq<ExpectedError>, specVersion: string)
    ensures |Listed(errs, specVersion)| == 0 <==> forall k :: 0 <= k < |errs| ==> !Applies(errs[k], specVersion)
    decreases |errs|
  {
    if |errs| > 0 {
      var p := errs[..|errs| - 1];
      ListedEmpty(p, specVersion);
      assert forall k :: 0 <= k < |p| ==> p[k] == errs[k];
    }
  }

  /**
   * The three outcomes: a bare pass exactly when an applicable error
   * matches; a failure exactly when no expected error applies at all;
   * otherwise a pass that names the applicable codes.
   */
  lemma ClassifyCases(errs: seq<ExpectedError>, specVersion: string, actualError: string)
    ensures Classify(errs, specVersion, actualError).Pass? <==>
      exists k :: 0 <= k < |errs| && Applies(errs[k], specVersion) && Matches(errs[k], actualError)
    ensures Classify(errs, specVersion, actualError).Fail? <==>
      forall k :: 0 <= k < |errs| ==> !Applies(errs[k], specVersion)
  {
    ListedEmpty(errs, specVersion);
    AnyMatchWitness(errs, specVersion, actualError);
  }

  /** The applicable expected errors, in order. */
  function Applicable(errs: seq<ExpectedError>, specVersion: string): (r: seq<ExpectedError>)
    decreases |errs|
  {
    if |errs| == 0 then []
    else
      var e := errs[|errs| - 1];
      Applicable(errs[..|errs| - 1], specVersion) + (if Applies(e, specVersion) then [e] else [])
  }

  lemma {:induction false} ApplicableProps(errs: seq<ExpectedError>, specVersion: string, actualError: string)
    ensures forall k :: 0 <= k < |Applicable(errs, specVersion)| ==> Applies(Applicable(errs, specVersion)[k], specVersion)
    ensures Listed(Applicable(errs, specVersion), specVersion) == Listed(errs, specVersion)
    ensures AnyMatch(Applicable(errs, specVersion), specVersion, actualError) <==> AnyMatch(errs, specVersion, actualError)
    decreases |errs|
  {
    if |errs| > 0 {
      var e := errs[|errs| - 1];
      var p := errs[..|errs| - 1];
      var ap := Applicable(p, specVersion);
      ApplicableProps(p, specVersion, actualError);
      if Applies(e, specVersion) {
        var ae := ap + [e];
        assert Applicable(errs, specVersion) == ae;
        assert ae[..|ae| - 1] == ap;
        assert forall k :: 0 <= k < |ap| ==> ae[k] == ap[k];
        assert AnyMatch(ae, specVersion, actualError) <==> AnyMatch(ap, specVersion, actualError) || Matches(e, actualError);
      } else {
        assert Applicable(errs, specVersion) == ap + [];
        assert ap + [] == ap;
      }
    }
  }

  /** Expected errors for other versions play no part: dropping them changes no verdict. */
  lemma ClassifyIgnoresOtherVersions(errs: seq<ExpectedError>, specVersion: string, actualError: string)
    ensures Classify(Applicable(errs, specVersion), specVersion, actualError) == Classify(errs, specVersion, actualError)
  {
    ApplicableProps(errs, specVersion, actualError);
  }

  /** An applicable wildcard passes whatever error was raised. */
  lemma WildcardPasses(errs: seq<ExpectedError>, specVersion: string, k: nat, actualError: string)
    requires k < |errs| && errs[k].code == "*" && Applies(errs[k], specVersion)
    ensures Classify(errs, specVersion, actualError) == Pass
  {
    AnyMatchWitness(errs, specVersion, actualError);
  }

  /** What the results stream receives. */
  datatype Entry =
    | TestCase(name: string, result: string, comment: Option<string>)
    | FileInstruction(path: string)   // the `<?file ...?>` processing instruction

  /** The entries written for a verdict: a bare pass writes no `file` instruction. */
  function Written(v: Verdict, testName: string, queryPath: string): seq<Entry> {
    match v
    case Pass => [TestCase(testName, "pass", None)]
    case PassWithComment(c) => [TestCase(testName, "pass", Some(c)), FileInstruction(queryPath)]
    case Fail(c) => [TestCase(testName, "fail", Some(c)), FileInstruction(queryPath)]
  }

  /** The results stream of the driver. */
  class Results {
    var entries: seq<Entry>

    constructor()
      ensures entries == []
    {
      entries := [];
    }

    /**
     * `processError` for the error code `actualError` of test `testName`,
     * whose expected errors are `errs`.
     */
    method ProcessError(actualError: string, errs: seq<ExpectedError>, testName: string,
                        queryPath: string, specVersion: string)
      modifies this
      ensures entries == old(entries) + Written(Classify(errs, specVersion, actualError), testName, queryPath)
    {
      var expected := "";
      var i := 0;
      while i < |errs|
        invariant 0 <= i <= |errs|
        invariant expected == Listed(errs[..i], specVersion)
        invariant !AnyMatch(errs[..i], specVersion, actualError)
      {
        var expectedError := errs[i];
        assert errs[..i + 1][..i] == errs[..i];
        if expectedError.appliesTo.Some? && !Contains(expectedError.appliesTo.value, specVersion) {
          i := i + 1;
          continue;
        }
        if expectedError.code == actualError || expectedError.code == "*" {
          AnyMatchWitness(errs, specVersion, actualError);
          entries := entries + [TestCase(testName, "pass", None)];
          return;
        }
        expected := expected + expectedError.code + " ";
        i := i + 1;
      }
      assert errs[..i] == errs;
      if |expected| > 0 {
        entries := entries + [TestCase(testName, "pass", Some("expected " + expected + ", got " + actualError))];
      } else {
        entries := entries + [TestCase(testName, "fail", Some("expected success, got " + actualError))];
      }
      entries := entries + [FileInstruction(queryPath)];
    }
  }
}
