/**
 * The bookkeeping of the XQuery Update test suite driver
 * (ee/UpdateTestSuiteDriver.java): which tests are skipped, how an error
 * or a final result is classified and counted, the name of the output
 * file, and the closing summary. Compiling and running queries and
 * comparing results are left out; their outcomes come in as values.
 */
module UpdateDriver {
  import opened Wrappers
  import opened Strings
  import opened JavaInt
  import XQuery10Driver

  /** Tests needing unsupported features: the `stf` tests and `fn-put-003` to `fn-put-006`. */
  predicate IsExcluded(testName: string) {
    || IsPrefix("stf", testName)
    || testName == "fn-put-003" || testName == "fn-put-004"
    || testName == "fn-put-005" || testName == "fn-put-006"
  }

  lemma IsExcludedCases()
    ensures IsExcluded("stf-1") && IsExcluded("fn-put-004")
    ensures !IsExcluded("fn-put-002") && !IsExcluded("fn-put-007") && !IsExcluded("st")
  {
    assert "stf-1"[..3] == "stf";
    assert "fn-put-002"[..3][0] == 'f';
    assert "fn-put-007"[..3][0] == 'f';
  }

  // ---------------------------------------------------------------------------
  // normalizeNewlines, as written and as evidently intended
  // ---------------------------------------------------------------------------

  /** `s.indexOf(code)` for an `int` argument: the first position holding the character with that code, or -1. */
  function IndexOfCode(s: string, code: int): (r: int)
    ensures -1 <= r < |s|
    ensures r >= 0 ==> s[r] as int == code && forall j :: 0 <= j < r ==> s[j] as int != code
    ensures r == -1 ==> forall j :: 0 <= j < |s| ==> s[j] as int != code
    decreases |s|
  {
    if |s| == 0 then -1
    else if s[0] as int == code then 0
    else
      var k := IndexOfCode(s[1..], code);
      if k == -1 then -1 else k + 1
  }

  /**
   * `normalizeNewlines` as written: the guard asks where the character
   * with code `cr + 1` first occurs and compares that position with 10
   * (the code of `\n`); when it holds, the first `\r` is deleted and the
   * rest is normalised in turn.
   */
  function NormalizeAsWritten(s: string): (r: string)
    ensures |r| <= |s|
    decreases |s|
  {
    var cr := IndexOfChar(s, '\r');
    if cr >= 0 && IndexOfCode(s, cr + 1) == '\n' as int then
      s[..cr] + NormalizeAsWritten(s[cr + 1..])
    else s
  }

  /** No carriage return, no change. */
  lemma AsWrittenNoCr(s: string)
    requires '\r' !in s
    ensures NormalizeAsWritten(s) == s
  {
  }

  /** The guard can only hold at position 10, so a string of at most 10 characters is never changed. */
  lemma AsWrittenShortUnchanged(s: string)
    requires |s| <= 10
    ensures NormalizeAsWritten(s) == s
  {
  }

  /** The CRLF of `a\r\nb` survives, where the intended result is `a\nb`. */
  lemma AsWrittenKeepsCrlf()
    ensures NormalizeAsWritten("a\r\nb") == "a\r\nb"
    ensures XQuery10Driver.NormalizeNewlines("a\r\nb") == "a\nb"
  {
    AsWrittenShortUnchanged("a\r\nb");
    XQuery10Driver.NormalizeNewlinesOnePass();
  }

  /**
   * A lone `\r` at position 0 is deleted when the character with code 1 first
   * appears at position 10, although no `\n` follows it.
   */
  lemma AsWrittenDeletesLoneCr(t: string)
    requires |t| >= 10 && '\r' !in t
    requires t[9] as int == 1 && forall j :: 0 <= j < 9 ==> t[j] as int != 1
    ensures NormalizeAsWritten("\r" + t) == t
  {
    var s := "\r" + t;
    assert IndexOfChar(s, '\r') == 0;
    assert s[10] as int == 1;
    assert forall j :: 1 <= j < 10 ==> s[j] == t[j - 1];
    assert IndexOfCode(s, 1) == 10;
    assert s[1..] == t;
    AsWrittenNoCr(t);
    assert s[..0] == [];
  }

  /** The smallest such string: `\r123456789` followed by the character with code 1. */
  lemma AsWrittenDeletesLoneCrExample()
    ensures var t := "123456789\U{1}"; NormalizeAsWritten("\r" + t) == t
  {
    var t := "123456789\U{1}";
    forall k | 0 <= k < |t|
      ensures t[k] != '\r'
    {
    }
    AsWrittenDeletesLoneCr(t);
  }

  /**
   * The version the guard was evidently meant to be (it is also the
   * commented-out body in the XQuery 1.0 driver): delete the first `\r`
   * when a `\n` follows it, then normalise the rest. A `\r` at the very end
   * is kept, as `replace("\r\n", "\n")` keeps it; the literal
   * `charAt(cr + 1)` would throw `StringIndexOutOfBoundsException` there.
   */
  function NormalizeNewlines(s: string): (r: string)
    ensures |r| <= |s|
    decreases |s|
  {
    var cr := IndexOfChar(s, '\r');
    if cr >= 0 && cr + 1 < |s| && s[cr + 1] == '\n' then
      s[..cr] + NormalizeNewlines(s[cr + 1..])
    else s
  }

  /** Every `\r` of `s` starts a CRLF pair. */
  predicate CrOnlyInPairs(s: string) {
    forall k :: 0 <= k < |s| && s[k] == '\r' ==> k + 1 < |s| && s[k + 1] == '\n'
  }

  /** The first `\r` of `a + t`, when `a` has none, is the first of `t`, shifted. */
  lemma FirstCr(a: string, t: string)
    requires '\r' !in a
    ensures IndexOfChar(t, '\r') == -1 ==> IndexOfChar(a + t, '\r') == -1
    ensures IndexOfChar(t, '\r') >= 0 ==> IndexOfChar(a + t, '\r') == |a| + IndexOfChar(t, '\r')
  {
    var s := a + t;
    var c := IndexOfChar(t, '\r');
    if c >= 0 {
      var p := s[..|a| + c];
      assert p == a + t[..c];
      assert '\r' !in p;
      forall k | 0 <= k < |a| + c
        ensures s[k] != '\r'
      {
        assert s[k] == p[k];
      }
      IndexOfCharAt(s, '\r', |a| + c);
    }
  }

  lemma SplitAfterPrefix(a: string, t: string, c: nat)
    requires c < |t|
    ensures (a + t)[..|a| + c] == a + t[..c] && (a + t)[|a| + c + 1..] == t[c + 1..]
  {
  }

  /** The first `\r` starts a pair: what comes before it, then the rest normalised. */
  lemma NormalizeAtCr(s: string, cr: nat)
    requires IndexOfChar(s, '\r') == cr && cr + 1 < |s| && s[cr + 1] == '\n'
    ensures NormalizeNewlines(s) == s[..cr] + NormalizeNewlines(s[cr + 1..])
  {
    var k := IndexOfChar(s, '\r');
    assert k >= 0 && k + 1 < |s| && s[k + 1] == '\n';
  }

  /** A prefix without `\r` is copied through. */
  lemma NormalizePrefix(a: string, t: string)
    requires '\r' !in a
    ensures NormalizeNewlines(a + t) == a + NormalizeNewlines(t)
  {
    var s := a + t;
    var c := IndexOfChar(t, '\r');
    FirstCr(a, t);
    if c == -1 {
      assert IndexOfChar(s, '\r') == -1;
      assert NormalizeNewlines(t) == t;
      assert NormalizeNewlines(s) == s;
    } else {
      var cr := |a| + c;
      assert IndexOfChar(s, '\r') == cr;
      var guard := c + 1 < |t| && t[c + 1] == '\n';
      assert (cr + 1 < |s| && s[cr + 1] == '\n') == guard;
      if guard {
        SplitAfterPrefix(a, t, c);
        assert s[..cr] == a + t[..c] && s[cr + 1..] == t[c + 1..];
        var rest := NormalizeNewlines(t[c + 1..]);
        NormalizeAtCr(s, cr);
        NormalizeAtCr(t, c);
        Associative(a, t[..c], rest);
      } else {
        assert NormalizeNewlines(t) == t;
        assert NormalizeNewlines(s) == s;
      }
    }
  }

  /** A leading pair becomes `\n`, then the rest is normalised. */
  lemma CrlfHead(u: string)
    ensures NormalizeNewlines("\r\n" + u) == "\n" + NormalizeNewlines(u)
  {
    var p := "\r\n" + u;
    assert IndexOfChar(p, '\r') == 0;
    assert p[1] == '\n';
    assert p[..0] == "";
    assert p[1..] == "\n" + u;
    NormalizePrefix("\n", u);
  }

  /** A prefix without `\r` is copied through by the replace-all version too. */
  lemma {:induction false} ReplacePrefix(a: string, t: string)
    requires '\r' !in a
    ensures XQuery10Driver.NormalizeNewlines(a + t) == a + XQuery10Driver.NormalizeNewlines(t)
    decreases |a|
  {
    if |a| > 0 {
      var s := a + t;
      assert s[0] == a[0] != '\r';
      assert !IsPrefix("\r\n", s);
      assert s[1..] == a[1..] + t;
      ReplacePrefix(a[1..], t);
      if |s| < 2 {
        assert |t| < 2;
        assert |a| == 1 && a + t == s;
      }
    } else {
      assert a + t == t;
    }
  }

  /** Where every `\r` starts a pair, the intended version replaces each CRLF by LF. */
  lemma {:induction false} NormalizeNewlinesReplacesPairs(s: string)
    requires CrOnlyInPairs(s)
    ensures NormalizeNewlines(s) == XQuery10Driver.NormalizeNewlines(s)
    decreases |s|
  {
    var cr := IndexOfChar(s, '\r');
    if cr == -1 {
      XQuery10Driver.NormalizeNewlinesNoCr(s);
    } else {
      PairsSplit(s, cr);
      var u := s[cr + 2..];
      NormalizeNewlinesReplacesPairs(u);
      PairStep(s[..cr], u);
    }
  }

  /** Around its first `\r`, a string whose carriage returns are all in pairs splits into a prefix, a pair and a rest of the same kind. */
  lemma PairsSplit(s: string, cr: nat)
    requires CrOnlyInPairs(s) && cr < |s| && s[cr] == '\r'
    ensures cr + 2 <= |s| && s == s[..cr] + ("\r\n" + s[cr + 2..])
    ensures CrOnlyInPairs(s[cr + 2..])
  {
    var u := s[cr + 2..];
    assert s[cr + 1] == '\n';
    forall k | 0 <= k < |u| && u[k] == '\r'
      ensures k + 1 < |u| && u[k + 1] == '\n'
    {
      assert s[cr + 2 + k] == '\r';
    }
  }

  /** The first pair: both versions copy `a`, turn the pair into `\n` and go on with `u`. */
  lemma PairStep(a: string, u: string)
    requires '\r' !in a
    ensures NormalizeNewlines(a + ("\r\n" + u)) == a + ("\n" + NormalizeNewlines(u))
    ensures XQuery10Driver.NormalizeNewlines(a + ("\r\n" + u)) == a + ("\n" + XQuery10Driver.NormalizeNewlines(u))
  {
    var p := "\r\n" + u;
    NormalizePrefix(a, p);
    CrlfHead(u);
    ReplacePrefix(a, p);
    assert p[2..] == u;
    assert IsPrefix("\r\n", p);
  }

  // ---------------------------------------------------------------------------
  // The output file suffix
  // ---------------------------------------------------------------------------

  /**
   * The suffix of the local output file: from the last `.` of the first
   * `output-file` name, or `.out` when there is none; `Err` when the name
   * has no `.`, where `substring(-1)` throws.
   */
  function OutputSuffix(outputFileName: Option<string>): (r: Result<string>)
    ensures r.Ok? ==> |r.value| > 0 && r.value[0] == '.' && '.' !in r.value[1..]
    ensures outputFileName.Some? ==> (r.Ok? <==> '.' in outputFileName.value)
    ensures outputFileName.Some? && r.Ok? ==> IsSuffix(r.value, outputFileName.value)
    ensures outputFileName.None? ==> r == Ok(".out")
  {
    match outputFileName
    case None => Ok(".out")
    case Some(name) =>
      var lastDot := LastIndexOfChar(name, '.');
      if lastDot == -1 then Err else Ok(name[lastDot..])
  }

  /** A name ending in a dotted extension gives that extension. */
  lemma OutputSuffixExtension(stem: string, ext: string)
    requires '.' !in ext
    ensures OutputSuffix(Some(stem + "." + ext)) == Ok("." + ext)
  {
    var e := "." + ext;
    assert stem + "." + ext == stem + e && e[1..] == ext;
    LastIndexOfCharSuffix(stem, e, '.');
  }

  /**
   * The local output file `testName + suffix` ends with the same suffix as
   * the expected output file: deriving the suffix again from it gives it back.
   */
  lemma LocalOutputFileSuffix(testName: string, outputFileName: Option<string>)
    requires OutputSuffix(outputFileName).Ok?
    ensures var suffix := OutputSuffix(outputFileName).value;
      OutputSuffix(Some(testName + suffix)) == Ok(suffix)
  {
    LastIndexOfCharSuffix(testName, OutputSuffix(outputFileName).value, '.');
  }

  // ---------------------------------------------------------------------------
  // The counters
  // ---------------------------------------------------------------------------

  /** The counters, the failing-test list and the lines written to the results file. */
  datatype Tally = Tally(successes: int, failures: int, wrongErrorResults: int,
                         failingTests: seq<string>, results: seq<string>)

  /** What the driver keeps true: one failing-test entry per failure, and wrong-error passes are passes. */
  predicate Consistent(t: Tally) {
    && |t.failingTests| == t.failures
    && 0 <= t.wrongErrorResults <= t.successes
  }

  /** The codes of the expected errors, each followed by a space. */
  function Listed(expected: seq<string>): (r: string)
    ensures |r| == 0 <==> |expected| == 0
    decreases |expected|
  {
    if |expected| == 0 then "" else Listed(expected[..|expected| - 1]) + expected[|expected| - 1] + " "
  }

  function PassLine(testName: string): string {
    "  <test-case name='" + testName + "' result='pass'/>\n"
  }

  /**
   * `processError` for a state raising `actualError`: only an exact code
   * match counts. A matched error is reported, and counted, only at the
   * last state; an unmatched one is always reported, under the name
   * suffixed with `-` and the state's id when it is not the last state.
   */
  function ErrorStep(t: Tally, actualError: string, expected: seq<string>, testName: string,
                     stateId: string, reportResult: bool): Tally
  {
    if actualError in expected then
      if reportResult then t.(successes := t.successes + 1, results := t.results + [PassLine(testName)])
      else t
    else
      var name := if reportResult then testName else testName + "-" + stateId;
      var listed := Listed(expected);
      if |listed| > 0 then
        t.(successes := t.successes + 1, wrongErrorResults := t.wrongErrorResults + 1,
           results := t.results + ["  <test-case name='" + name + "' result='pass'" +
                                   " comment='expected " + listed + ", got " + actualError + "'/>\n"])
      else
        t.(failures := t.failures + 1, failingTests := t.failingTests + [name],
           results := t.results + ["  <test-case name='" + name + "' result='fail'" +
                                   " comment='expected success, got " + actualError + "'/>\n"])
  }

  /**
   * The counters keep their invariant, and exactly one of them moves by
   * one, except for a matched error before the last state, which changes
   * nothing. There is no `*` wildcard: a wildcard alone passes nothing.
   */
  lemma ErrorStepCounts(t: Tally, actualError: string, expected: seq<string>, testName: string,
                        stateId: string, reportResult: bool)
    requires Consistent(t)
    ensures var t' := ErrorStep(t, actualError, expected, testName, stateId, reportResult);
      && Consistent(t')
      && (actualError in expected && !reportResult <==> t' == t)
      && (actualError in expected && reportResult ==> t' == t.(successes := t.successes + 1, results := t'.results))
      && (actualError !in expected && |expected| > 0 ==>
            t'.successes == t.successes + 1 && t'.wrongErrorResults == t.wrongErrorResults + 1 && t'.failures == t.failures)
      && (|expected| == 0 ==> t'.failures == t.failures + 1 && t'.successes == t.successes)
      && |t'.results| <= |t.results| + 1
  {
  }

  /** An expected `*` is a code like any other: another error raised is a wrong-error pass. */
  lemma NoWildcard(t: Tally, actualError: string, testName: string)
    requires actualError != "*"
    ensures ErrorStep(t, actualError, ["*"], testName, "", true).wrongErrorResults == t.wrongErrorResults + 1
  {
  }

  /** The line written at the last state when the query ran to completion. */
  function ReportStep(t: Tally, testName: string, resultsMatched: bool, optimizationOK: bool,
                      possibleMatch: Option<string>, expectedError: Option<string>,
                      foundExpectedResults: bool): Tally
  {
    if resultsMatched then
      t.(successes := t.successes + 1,
         results := t.results + ["  <test-case name='" + testName + "' result='pass'" +
                                 (if optimizationOK then "" else " comment='check optimization'") + "/>\n"])
    else if possibleMatch.Some? then
      t.(successes := t.successes + 1, wrongErrorResults := t.wrongErrorResults + 1,
         results := t.results + ["  <test-case name='" + testName + "' result='pass' comment='" +
                                 possibleMatch.value + "'/>\n"])
    else if expectedError.Some? then
      t.(failures := t.failures + 1, failingTests := t.failingTests + [testName],
         results := t.results + ["  <test-case name='" + testName + "' result='fail' comment='" +
                                 "expected " + expectedError.value + ", got success'/>\n"])
    else if foundExpectedResults then
      t.(failures := t.failures + 1, failingTests := t.failingTests + [testName],
         results := t.results + ["  <test-case name='" + testName + "' result='fail'/>\n"])
    else t
  }

  /**
   * The final report keeps the invariant; a failing test is recorded under
   * its own name; a state with neither expected results nor an expected
   * error that did not match writes nothing.
   */
  lemma ReportStepCounts(t: Tally, testName: string, resultsMatched: bool, optimizationOK: bool,
                         possibleMatch: Option<string>, expectedError: Option<string>,
                         foundExpectedResults: bool)
    requires Consistent(t)
    ensures var t' := ReportStep(t, testName, resultsMatched, optimizationOK, possibleMatch, expectedError, foundExpectedResults);
      && Consistent(t')
      && (t'.failures == t.failures + 1 <==> !resultsMatched && possibleMatch.None? && (expectedError.Some? || foundExpectedResults))
      && (t'.failures == t.failures + 1 ==> t'.failingTests == t.failingTests + [testName])
      && (t' == t <==> !resultsMatched && possibleMatch.None? && expectedError.None? && !foundExpectedResults)
  {
  }

  /** How the query of one state ended once it had compiled: a dynamic error, or a run to completion. */
  datatype RunOutcome =
    | Raised(actualError: string, expected: seq<string>, stateId: string)
    | Ran(resultsMatched: bool, possibleMatch: Option<string>, expectedError: Option<string>, foundExpectedResults: bool)

  /**
   * How one state of a test case went: its query failed to compile, or it
   * compiled, and then the output suffix was taken from the first
   * `output-file` name (`None` when the state has none) before the query ran.
   */
  datatype StateOutcome =
    | NotCompiled(actualError: string, expected: seq<string>, stateId: string)
    | Compiled(outputFileName: Option<string>, outcome: RunOutcome)

  /** The tallies, and whether an exception has escaped to the outer `catch` of `go`, ending the run. */
  datatype Progress = Progress(tally: Tally, aborted: bool)

  /**
   * A state whose query compiled but whose output file name has no `.`:
   * `substring(-1)` throws outside both per-state `try` blocks.
   */
  predicate Aborts(st: StateOutcome) {
    st.Compiled? && OutputSuffix(st.outputFileName).Err?
  }

  /** A compiled query's outcome: an error is processed at once; a completed run is reported only at the last state. */
  function RunStep(t: Tally, testName: string, o: RunOutcome, isLast: bool, optimizationOK: bool): Tally {
    match o
    case Raised(a, e, id) => ErrorStep(t, a, e, testName, id, isLast)
    case Ran(m, p, e, f) => if isLast then ReportStep(t, testName, m, optimizationOK, p, e, f) else t
  }

  /** One state; the suffix is derived before the query runs, so an abort writes nothing for that state. */
  function StateStep(t: Tally, testName: string, st: StateOutcome, isLast: bool, optimizationOK: bool): Progress {
    match st
    case NotCompiled(a, e, id) => Progress(ErrorStep(t, a, e, testName, id, isLast), false)
    case Compiled(f, o) =>
      if OutputSuffix(f).Err? then Progress(t, true)
      else Progress(RunStep(t, testName, o, isLast, optimizationOK), false)
  }

  /** The states of a test case, in order, up to an abort; only the last one counts as last. */
  function RunStates(t: Tally, testName: string, states: seq<StateOutcome>, optimizationOK: bool): Progress
    decreases |states|
  {
    if |states| == 0 then Progress(t, false)
    else
      var p := StateStep(t, testName, states[0], |states| == 1, optimizationOK);
      if p.aborted then p else RunStates(p.tally, testName, states[1..], optimizationOK)
  }

  /** A whole test case keeps the invariant, whether it ends normally or aborts. */
  lemma {:induction false} RunStatesConsistent(t: Tally, testName: string, states: seq<StateOutcome>, optimizationOK: bool)
    requires Consistent(t)
    ensures Consistent(RunStates(t, testName, states, optimizationOK).tally)
    decreases |states|
  {
    if |states| > 0 {
      var st := states[0];
      var isLast := |states| == 1;
      match st {
        case NotCompiled(a, e, id) => ErrorStepCounts(t, a, e, testName, id, isLast);
        case Compiled(f, o) =>
          match o {
            case Raised(a, e, id) => ErrorStepCounts(t, a, e, testName, id, isLast);
            case Ran(m, p, e, x) => if isLast { ReportStepCounts(t, testName, m, optimizationOK, p, e, x); }
          }
      }
      var p := StateStep(t, testName, st, isLast, optimizationOK);
      if !p.aborted {
        RunStatesConsistent(p.tally, testName, states[1..], optimizationOK);
      }
    }
  }

  /** A test case aborts the run exactly when one of its states compiled with a dot-less output file name. */
  lemma {:induction false} RunStatesAborts(t: Tally, testName: string, states: seq<StateOutcome>, optimizationOK: bool)
    ensures RunStates(t, testName, states, optimizationOK).aborted <==> exists k :: 0 <= k < |states| && Aborts(states[k])
    decreases |states|
  {
    if |states| > 0 {
      var p := StateStep(t, testName, states[0], |states| == 1, optimizationOK);
      assert p.aborted <==> Aborts(states[0]);
      if !p.aborted {
        RunStatesAborts(p.tally, testName, states[1..], optimizationOK);
        assert forall k :: 1 <= k < |states| ==> states[k] == states[1..][k - 1];
        assert forall k :: 0 <= k < |states[1..]| ==> states[1..][k] == states[k + 1];
      }
    }
  }

  /** A state before the last that changes nothing: an expected error, or a run, with a usable suffix when compiled. */
  predicate Quiet(st: StateOutcome) {
    match st
    case NotCompiled(a, e, _) => a in e
    case Compiled(f, o) => OutputSuffix(f).Ok? && (o.Ran? || o.actualError in o.expected)
  }

  /** Earlier quiet states change nothing: only the last state reports. */
  lemma {:induction false} QuietEarlierStates(t: Tally, testName: string, states: seq<StateOutcome>, optimizationOK: bool)
    requires |states| > 0
    requires forall k :: 0 <= k < |states| - 1 ==> Quiet(states[k])
    ensures RunStates(t, testName, states, optimizationOK)
      == StateStep(t, testName, states[|states| - 1], true, optimizationOK)
    decreases |states|
  {
    if |states| > 1 {
      assert Quiet(states[0]);
      assert StateStep(t, testName, states[0], false, optimizationOK) == Progress(t, false);
      assert forall k :: 0 <= k < |states[1..]| - 1 ==> states[1..][k] == states[k + 1];
      QuietEarlierStates(t, testName, states[1..], optimizationOK);
    }
  }

  // ---------------------------------------------------------------------------
  // The loop over the test cases
  // ---------------------------------------------------------------------------

  /** A test case of the catalog: its name, its states, and whether its optimisation assertions held. */
  datatype TestCase = TestCase(name: string, states: seq<StateOutcome>, optimizationOK: bool)

  /** A test case is run unless it is in the exceptions list or excluded. */
  predicate Runs(c: TestCase, exceptions: set<string>) {
    c.name !in exceptions && !IsExcluded(c.name)
  }

  /** The line `println` writes on the monitor for a test case, before its states. */
  function Announce(c: TestCase, exceptions: set<string>): string {
    if c.name in exceptions then "Test " + c.name + " not run (in exceptions list)"
    else if IsExcluded(c.name) then "Test " + c.name + " not run (excluded)"
    else "Test " + c.name
  }

  /** Where the loop over the test cases ends: the tallies, the monitor lines, and whether it aborted. */
  datatype SuiteRun = SuiteRun(tally: Tally, lines: seq<string>, aborted: bool)

  /** One test case: unchanged when it is not run, otherwise its states run. */
  function AfterCase(t: Tally, c: TestCase, exceptions: set<string>): Progress {
    if Runs(c, exceptions) then RunStates(t, c.name, c.states, c.optimizationOK) else Progress(t, false)
  }

  /** The test cases in order; an abort skips every later test case. */
  function RunCases(t: Tally, cases: seq<TestCase>, exceptions: set<string>): SuiteRun
    decreases |cases|
  {
    if |cases| == 0 then SuiteRun(t, [], false)
    else
      var head := [Announce(cases[0], exceptions)];
      var p := AfterCase(t, cases[0], exceptions);
      if p.aborted then SuiteRun(p.tally, head, true)
      else
        var r := RunCases(p.tally, cases[1..], exceptions);
        SuiteRun(r.tally, head + r.lines, r.aborted)
  }

  /** A run test case that aborts the run. */
  predicate CaseAborts(c: TestCase, exceptions: set<string>) {
    Runs(c, exceptions) && exists k :: 0 <= k < |c.states| && Aborts(c.states[k])
  }

  /** A test case aborts the run exactly when it is run and one of its states aborts. */
  lemma AfterCaseAborts(t: Tally, c: TestCase, exceptions: set<string>)
    ensures AfterCase(t, c, exceptions).aborted <==> CaseAborts(c, exceptions)
  {
    if Runs(c, exceptions) {
      RunStatesAborts(t, c.name, c.states, c.optimizationOK);
    }
  }

  /** The loop over the test cases keeps the tallies consistent, aborted or not. */
  lemma {:induction false} RunCasesConsistent(t: Tally, cases: seq<TestCase>, exceptions: set<string>)
    requires Consistent(t)
    ensures Consistent(RunCases(t, cases, exceptions).tally)
    decreases |cases|
  {
    if |cases| > 0 {
      var p := AfterCase(t, cases[0], exceptions);
      if Runs(cases[0], exceptions) {
        RunStatesConsistent(t, cases[0].name, cases[0].states, cases[0].optimizationOK);
      }
      if !p.aborted {
        RunCasesConsistent(p.tally, cases[1..], exceptions);
      }
    }
  }

  /** The announcement lines of a list of test cases. */
  function Announced(cases: seq<TestCase>, exceptions: set<string>): (r: seq<string>)
    ensures |r| == |cases|
  {
    seq(|cases|, k requires 0 <= k < |cases| => Announce(cases[k], exceptions))
  }

  lemma AnnouncedCons(c: TestCase, cs: seq<TestCase>, exceptions: set<string>)
    ensures Announced([c] + cs, exceptions) == [Announce(c, exceptions)] + Announced(cs, exceptions)
  {
    var a := Announced([c] + cs, exceptions);
    var b := [Announce(c, exceptions)] + Announced(cs, exceptions);
    assert forall k :: 0 <= k < |a| ==> a[k] == b[k];
  }

  /** Without an aborting test case, the loop runs to the end and announces every test case. */
  lemma {:induction false} RunCasesComplete(t: Tally, cases: seq<TestCase>, exceptions: set<string>)
    requires forall k :: 0 <= k < |cases| ==> !CaseAborts(cases[k], exceptions)
    ensures !RunCases(t, cases, exceptions).aborted
    ensures RunCases(t, cases, exceptions).lines == Announced(cases, exceptions)
    decreases |cases|
  {
    if |cases| > 0 {
      var c := cases[0];
      var rest := cases[1..];
      AfterCaseAborts(t, c, exceptions);
      var p := AfterCase(t, c, exceptions);
      assert forall k :: 0 <= k < |rest| ==> rest[k] == cases[k + 1];
      RunCasesComplete(p.tally, rest, exceptions);
      assert cases == [c] + rest;
      AnnouncedCons(c, rest, exceptions);
    }
  }

  /**
   * When the test case at `k` is the first to abort, the loop stops there:
   * it is the last one announced, and every later test case is skipped.
   */
  lemma {:induction false} RunCasesStops(t: Tally, cases: seq<TestCase>, exceptions: set<string>, k: nat)
    requires k < |cases| && CaseAborts(cases[k], exceptions)
    requires forall j :: 0 <= j < k ==> !CaseAborts(cases[j], exceptions)
    ensures RunCases(t, cases, exceptions).aborted
    ensures RunCases(t, cases, exceptions).lines == Announced(cases[..k + 1], exceptions)
    decreases k
  {
    var c := cases[0];
    var rest := cases[1..];
    AfterCaseAborts(t, c, exceptions);
    var p := AfterCase(t, c, exceptions);
    if k == 0 {
      assert Announced(cases[..1], exceptions) == [Announce(c, exceptions)];
    } else {
      assert forall j :: 0 <= j < |rest| ==> rest[j] == cases[j + 1];
      RunCasesStops(p.tally, rest, exceptions, k - 1);
      assert cases[..k + 1] == [c] + rest[..k];
      AnnouncedCons(c, rest[..k], exceptions);
    }
  }

  /** The loop over the test cases from position `i`: test case `i`, then, unless it aborts, the rest. */
  lemma RunCasesAt(t: Tally, cases: seq<TestCase>, i: nat, exceptions: set<string>)
    requires i < |cases|
    ensures var p := AfterCase(t, cases[i], exceptions);
      var r := RunCases(t, cases[i..], exceptions);
      var ann := [Announce(cases[i], exceptions)];
      && (p.aborted ==> r.tally == p.tally && r.aborted && r.lines == ann)
      && (!p.aborted ==>
            var r' := RunCases(p.tally, cases[i + 1..], exceptions);
            r.tally == r'.tally && r.aborted == r'.aborted && r.lines == ann + r'.lines)
  {
    assert cases[i..][0] == cases[i] && cases[i..][1..] == cases[i + 1..];
  }

  /** Everything `go` prints on the monitor: the announcements, then the summary unless the run aborted. */
  function GoLines(t: Tally, cases: seq<TestCase>, exceptions: set<string>): seq<string> {
    var r := RunCases(t, cases, exceptions);
    r.lines + (if r.aborted then [] else SummaryLines(r.tally))
  }

  /** One turn of the loop of `go`, from the loop invariant before test case `i` to the one after it, or to the end. */
  lemma GoStep(t: Tally, t': Tally, aborted: bool, cases: seq<TestCase>, i: nat, exceptions: set<string>,
               printed: seq<string>, all: SuiteRun)
    requires i < |cases|
    requires t' == AfterCase(t, cases[i], exceptions).tally && aborted == AfterCase(t, cases[i], exceptions).aborted
    requires RunCases(t, cases[i..], exceptions).tally == all.tally
    requires RunCases(t, cases[i..], exceptions).aborted == all.aborted
    requires printed + RunCases(t, cases[i..], exceptions).lines == all.lines
    ensures var printed' := printed + [Announce(cases[i], exceptions)];
      && (aborted ==> all.aborted && printed' == all.lines && t' == all.tally)
      && (!aborted ==>
            && RunCases(t', cases[i + 1..], exceptions).tally == all.tally
            && RunCases(t', cases[i + 1..], exceptions).aborted == all.aborted
            && printed' + RunCases(t', cases[i + 1..], exceptions).lines == all.lines)
  {
    RunCasesAt(t, cases, i, exceptions);
    if !aborted {
      Associative(printed, [Announce(cases[i], exceptions)], RunCases(t', cases[i + 1..], exceptions).lines);
    }
  }

  lemma GoLinesAborted(t: Tally, cases: seq<TestCase>, exceptions: set<string>)
    requires RunCases(t, cases, exceptions).aborted
    ensures GoLines(t, cases, exceptions) == RunCases(t, cases, exceptions).lines
  {
  }

  lemma GoLinesCompleted(t: Tally, cases: seq<TestCase>, exceptions: set<string>)
    requires !RunCases(t, cases, exceptions).aborted
    ensures GoLines(t, cases, exceptions)
      == RunCases(t, cases, exceptions).lines + SummaryLines(RunCases(t, cases, exceptions).tally)
  {
  }


  /** How many failing tests the closing loop prints: `min(failures, failingTests.size())`. */
  function ShownCount(t: Tally): nat {
    if t.failures < 0 then 0 else if t.failures < |t.failingTests| then t.failures else |t.failingTests|
  }

  /** One indented line per name. */
  function FailingLines(names: seq<string>): (r: seq<string>)
    decreases |names|
  {
    if |names| == 0 then [] else FailingLines(names[..|names| - 1]) + ["  " + names[|names| - 1]]
  }

  lemma FailingLinesStep(names: seq<string>, i: nat)
    requires i < |names|
    ensures FailingLines(names[..i + 1]) == FailingLines(names[..i]) + ["  " + names[i]]
  {
    assert names[..i + 1][..i] == names[..i];
  }

  lemma {:induction false} FailingLinesShape(names: seq<string>)
    ensures |FailingLines(names)| == |names|
    ensures forall k :: 0 <= k < |names| ==> FailingLines(names)[k] == "  " + names[k]
    decreases |names|
  {
    if |names| > 0 {
      var p := names[..|names| - 1];
      FailingLinesShape(p);
      assert forall k :: 0 <= k < |p| ==> p[k] == names[k];
    }
  }

  /** The two lines of counts printed first. */
  function SummaryHead(t: Tally): seq<string> {
    ["Results: " + IntToString(t.successes) + " passed, " + IntToString(t.failures) + " failed, " +
     IntToString(t.wrongErrorResults) + " wrong error code",
     "Failing tests (max 30):"]
  }

  /** The summary printed at the end: the counts, then up to `failures` failing tests. */
  function SummaryLines(t: Tally): seq<string> {
    SummaryHead(t) + FailingLines(t.failingTests[..ShownCount(t)])
  }

  /** Under the invariant every failing test is printed, in order: the loop has no cap at 30. */
  lemma SummaryListsAll(t: Tally)
    requires Consistent(t)
    ensures |SummaryLines(t)| == 2 + |t.failingTests|
    ensures forall k :: 0 <= k < |t.failingTests| ==> SummaryLines(t)[2 + k] == "  " + t.failingTests[k]
  {
    assert t.failingTests[..ShownCount(t)] == t.failingTests;
    FailingLinesShape(t.failingTests);
  }

  /** The driver's counters and output. */
  class Driver {
    var successes: int
    var failures: int
    var wrongErrorResults: int
    var failingTests: seq<string>
    var results: seq<string>
    var monitor: seq<string>

    function State(): Tally
      reads this
    {
      Tally(successes, failures, wrongErrorResults, failingTests, results)
    }

    constructor()
      ensures State() == Tally(0, 0, 0, [], []) && monitor == []
      ensures Consistent(State())
    {
      successes := 0;
      failures := 0;
      wrongErrorResults := 0;
      failingTests := [];
      results := [];
      monitor := [];
    }

    /** `processError` for one state raising `actualError`. */
    method ProcessError(actualError: string, expected: seq<string>, testName: string,
                        stateId: string, reportResult: bool)
      modifies this
      ensures State() == ErrorStep(old(State()), actualError, expected, testName, stateId, reportResult)
      ensures monitor == old(monitor)
    {
      var listed := "";
      var i := 0;
      while i < |expected|
        invariant 0 <= i <= |expected|
        invariant listed == Listed(expected[..i])
        invariant actualError !in expected[..i]
      {
        assert expected[..i + 1][..i] == expected[..i];
        if expected[i] == actualError {
          if reportResult {
            successes := successes + 1;
            results := results + [PassLine(testName)];
          }
          return;
        }
        listed := listed + expected[i] + " ";
        i := i + 1;
      }
      assert expected[..i] == expected;
      var name := testName;
      if !reportResult {
        name := name + "-" + stateId;
      }
      if |listed| > 0 {
        successes := successes + 1;
        wrongErrorResults := wrongErrorResults + 1;
        results := results + ["  <test-case name='" + name + "' result='pass'" +
                              " comment='expected " + listed + ", got " + actualError + "'/>\n"];
      } else {
        failures := failures + 1;
        results := results + ["  <test-case name='" + name + "' result='fail'" +
                              " comment='expected success, got " + actualError + "'/>\n"];
        failingTests := failingTests + [name];
      }
    }

    /** The report at the last state of a test case whose query ran to completion. */
    method ReportLastState(testName: string, resultsMatched: bool, optimizationOK: bool,
                           possibleMatch: Option<string>, expectedError: Option<string>,
                           foundExpectedResults: bool)
      modifies this
      ensures State() == ReportStep(old(State()), testName, resultsMatched, optimizationOK,
                                    possibleMatch, expectedError, foundExpectedResults)
      ensures monitor == old(monitor)
    {
      if resultsMatched {
        successes := successes + 1;
        results := results + ["  <test-case name='" + testName + "' result='pass'" +
                              (if optimizationOK then "" else " comment='check optimization'") + "/>\n"];
      } else {
        if possibleMatch.Some? {
          wrongErrorResults := wrongErrorResults + 1;
          successes := successes + 1;
          results := results + ["  <test-case name='" + testName + "' result='pass' comment='" +
                                possibleMatch.value + "'/>\n"];
        } else if expectedError.Some? {
          failures := failures + 1;
          results := results + ["  <test-case name='" + testName + "' result='fail' comment='" +
                                "expected " + expectedError.value + ", got success'/>\n"];
          failingTests := failingTests + [testName];
        } else if foundExpectedResults {
          failures := failures + 1;
          results := results + ["  <test-case name='" + testName + "' result='fail'/>\n"];
          failingTests := failingTests + [testName];
        }
      }
    }

    /**
     * The loop over the states of one test case; `aborted` is set when an
     * exception escapes it, and then the tallies are those written so far.
     */
    method RunTestCase(testName: string, states: seq<StateOutcome>, optimizationOK: bool) returns (aborted: bool)
      modifies this
      ensures State() == RunStates(old(State()), testName, states, optimizationOK).tally
      ensures aborted == RunStates(old(State()), testName, states, optimizationOK).aborted
      ensures monitor == old(monitor)
    {
      ghost var t0 := State();
      ghost var m0 := monitor;
      var numberOfStates := |states|;
      var stateNumber := 0;
      while stateNumber < numberOfStates
        invariant 0 <= stateNumber <= numberOfStates
        invariant RunStates(State(), testName, states[stateNumber..], optimizationOK)
          == RunStates(t0, testName, states, optimizationOK)
        invariant monitor == m0
      {
        var st := states[stateNumber];
        assert states[stateNumber..][0] == st && states[stateNumber..][1..] == states[stateNumber + 1..];
        var isLast := stateNumber + 1 == numberOfStates;
        match st {
          case NotCompiled(a, e, id) => ProcessError(a, e, testName, id, isLast);
          case Compiled(f, o) =>
            var suffix := OutputSuffix(f);
            if suffix.Err? {
              return true;
            }
            match o {
              case Raised(a, e, id) => ProcessError(a, e, testName, id, isLast);
              case Ran(m, p, e, x) =>
                if isLast {
                  ReportLastState(testName, m, optimizationOK, p, e, x);
                }
            }
        }
        stateNumber := stateNumber + 1;
      }
      return false;
    }

    /** `println`: one line on the monitor. */
    method Println(line: string)
      modifies this
      ensures State() == old(State())
      ensures monitor == old(monitor) + [line]
    {
      monitor := monitor + [line];
    }

    /** One test case of `go`: announced, skipped when listed or excluded, and otherwise run. */
    method VisitCase(c: TestCase, exceptions: set<string>) returns (aborted: bool)
      modifies this
      ensures State() == AfterCase(old(State()), c, exceptions).tally
      ensures aborted == AfterCase(old(State()), c, exceptions).aborted
      ensures monitor == old(monitor) + [Announce(c, exceptions)]
    {
      var testName := c.name;
      if testName in exceptions {
        Println("Test " + testName + " not run (in exceptions list)");
        aborted := false;
      } else if IsExcluded(testName) {
        Println("Test " + testName + " not run (excluded)");
        aborted := false;
      } else {
        Println("Test " + testName);
        aborted := RunTestCase(testName, c.states, c.optimizationOK);
      }
    }

    /**
     * The loop of `go` over the test cases of the catalog, in order; an
     * exception out of a test case ends it at once.
     */
    method RunCasesLoop(cases: seq<TestCase>, exceptions: set<string>) returns (stopped: bool)
      modifies this
      ensures State() == RunCases(old(State()), cases, exceptions).tally
      ensures stopped == RunCases(old(State()), cases, exceptions).aborted
      ensures monitor == old(monitor) + RunCases(old(State()), cases, exceptions).lines
    {
      ghost var t0 := State();
      ghost var m0 := monitor;
      ghost var all := RunCases(t0, cases, exceptions);
      ghost var printed: seq<string> := [];
      var i := 0;
      stopped := false;
      while i < |cases| && !stopped
        invariant 0 <= i <= |cases|
        invariant monitor == m0 + printed
        invariant stopped ==> all.aborted && printed == all.lines && State() == all.tally
        invariant !stopped ==> RunCases(State(), cases[i..], exceptions).tally == all.tally
        invariant !stopped ==> RunCases(State(), cases[i..], exceptions).aborted == all.aborted
        invariant !stopped ==> printed + RunCases(State(), cases[i..], exceptions).lines == all.lines
      {
        ghost var before := State();
        var aborted := VisitCase(cases[i], exceptions);
        GoStep(before, State(), aborted, cases, i, exceptions, printed, all);
        Associative(m0, printed, [Announce(cases[i], exceptions)]);
        printed := printed + [Announce(cases[i], exceptions)];
        stopped := aborted;
        i := i + 1;
      }
      if !stopped {
        assert cases[i..] == [];
      }
    }

    /**
     * `go`: the loop over the test cases, then the summary, which an
     * exception out of the loop skips (the outer `catch` only prints it).
     */
    method Go(cases: seq<TestCase>, exceptions: set<string>)
      modifies this
      ensures State() == RunCases(old(State()), cases, exceptions).tally
      ensures monitor == old(monitor) + GoLines(old(State()), cases, exceptions)
    {
      ghost var t0 := State();
      ghost var m0 := monitor;
      ghost var r := RunCases(t0, cases, exceptions);
      var stopped := RunCasesLoop(cases, exceptions);
      if stopped {
        GoLinesAborted(t0, cases, exceptions);
      } else {
        PrintSummary();
        GoLinesCompleted(t0, cases, exceptions);
        Associative(m0, r.lines, SummaryLines(r.tally));
      }
    }

    /** The closing summary on the monitor stream. */
    method PrintSummary()
      modifies this
      ensures State() == old(State())
      ensures monitor == old(monitor) + SummaryLines(State())
    {
      ghost var m0 := monitor;
      ghost var t := State();
      var line := "Results: " + IntToString(successes) + " passed, " + IntToString(failures) + " failed, " +
                  IntToString(wrongErrorResults) + " wrong error code";
      monitor := monitor + [line];
      monitor := monitor + ["Failing tests (max 30):"];
      ghost var m1 := m0 + SummaryHead(t);
      assert SummaryHead(t) == [line, "Failing tests (max 30):"];
      assert monitor == m1 + FailingLines(failingTests[..0]);
      var n := if failures < |failingTests| then failures else |failingTests|;
      var i := 0;
      while i < n
        invariant State() == t
        invariant 0 <= i <= ShownCount(t)
        invariant n < 0 || i <= n
        invariant monitor == m1 + FailingLines(failingTests[..i])
      {
        FailingLinesStep(failingTests, i);
        Associative(m1, FailingLines(failingTests[..i]), ["  " + failingTests[i]]);
        monitor := monitor + ["  " + failingTests[i]];
        i := i + 1;
      }
      assert i == ShownCount(t);
      Associative(m0, SummaryHead(t), FailingLines(failingTests[..i]));
    }
  }
}
