/**
 * The bookkeeping of the XML Schema test suite driver
 * (ee/SchemaTestSuiteDriver.java): which test sets, groups and tests run
 * for the schema version under test, the verdict on each test, the
 * counters, the exceptions list and the default file names. Loading
 * schemas and validating instances are left out: each test's success
 * comes in as a value.
 */
module SchemaDriver {
  import opened Wrappers
  import opened Strings
  import Dom

  /** `versionUnderTest` unless `-v:` says otherwise. */
  const DefaultVersionUnderTest: string := "1.1"

  // ---------------------------------------------------------------------------
  // Version filtering
  // ---------------------------------------------------------------------------

  /** The `version` of a test set or group: absent is empty, `full-xpath-in-CTA` is `1.1`. */
  function NormalizeVersion(v: Option<string>): (r: string)
    ensures v.None? ==> r == ""
    ensures v.Some? && v.value != "full-xpath-in-CTA" ==> r == v.value
  {
    if v.None? then "" else if v.value == "full-xpath-in-CTA" then "1.1" else v.value
  }

  /** A test set or group runs when its normalised version is empty or mentions the version under test. */
  predicate SetOrGroupRuns(v: Option<string>, versionUnderTest: string) {
    var vn := NormalizeVersion(v);
    |vn| == 0 || Contains(vn, versionUnderTest)
  }

  /** A schema or instance test runs when it has no `version` or its `version` mentions the version under test. */
  predicate TestRuns(v: Option<string>, versionUnderTest: string) {
    v.None? || Contains(v.value, versionUnderTest)
  }

  /**
   * An unversioned set, group or test always runs; `full-xpath-in-CTA`
   * counts as 1.1 on a set or a group but not on a single test.
   */
  lemma VersionFilters(versionUnderTest: string)
    ensures SetOrGroupRuns(None, versionUnderTest) && TestRuns(None, versionUnderTest)
    ensures SetOrGroupRuns(Some("full-xpath-in-CTA"), "1.1")
    ensures !SetOrGroupRuns(Some("full-xpath-in-CTA"), "1.0")
    ensures !TestRuns(Some("full-xpath-in-CTA"), "1.1")
  {
    assert IsPrefix("1.1", "1.1");
    var f := "full-xpath-in-CTA";
    assert !Contains("1.1", "1.0") by {
      assert !IsPrefix("1.0", "1.1") && "1.1"[1..] == ".1" && "1.1"[1..][1..] == "1";
      NoRoomNoContains(".1", "1.0");
    }
    assert !Contains(f, "1.1") by {
      NoDigitNoContains(f, "1.1");
    }
  }

  /** A text without the first character of `sub` does not contain `sub`. */
  lemma NoDigitNoContains(s: string, sub: string)
    requires |sub| > 0 && sub[0] !in s
    ensures !Contains(s, sub)
  {
    forall i | 0 <= i <= |s|
      ensures !IsPrefix(sub, s[i..])
    {
      if i < |s| {
        assert s[i..][0] == s[i];
      }
    }
    NoWitnessNoContains(s, sub);
  }

  /** A set or group with a non-empty version runs exactly when it is to run as a test with that version. */
  lemma SetOrGroupAsTest(v: string, versionUnderTest: string)
    requires v != "" && v != "full-xpath-in-CTA"
    ensures SetOrGroupRuns(Some(v), versionUnderTest) <==> TestRuns(Some(v), versionUnderTest)
  {
  }

  // ---------------------------------------------------------------------------
  // The verdict
  // ---------------------------------------------------------------------------

  /** The expected validity: `indeterminate` when no `expected` element applies. */
  function ExpectedOutcome(expected: Option<string>): string {
    if expected.None? then "indeterminate" else expected.value
  }

  /** Outcomes the driver accepts whatever happened. */
  predicate Lenient(expectedOutcome: string) {
    expectedOutcome == "indeterminate" || expectedOutcome == "implementation-defined"
      || expectedOutcome == "implementation-dependent"
  }

  /** `ok`: a lenient expectation, or success exactly when validity was expected. */
  function IsOk(expectedOutcome: string, success: bool): (r: bool)
    ensures Lenient(expectedOutcome) ==> r
  {
    || expectedOutcome == "indeterminate"
    || expectedOutcome == "implementation-defined"
    || expectedOutcome == "implementation-dependent"
    || success == (expectedOutcome == "valid")
  }

  /**
   * `valid` is met only by success, any other definite expectation
   * (`invalid`, say) only by failure, and a missing expectation by anything.
   */
  lemma IsOkCases(expectedOutcome: string, success: bool)
    ensures expectedOutcome == "valid" ==> (IsOk(expectedOutcome, success) <==> success)
    ensures !Lenient(expectedOutcome) && expectedOutcome != "valid" ==> (IsOk(expectedOutcome, success) <==> !success)
    ensures IsOk(ExpectedOutcome(None), success)
  {
  }

  // ---------------------------------------------------------------------------
  // Exceptions
  // ---------------------------------------------------------------------------

  /** The key of an exception: the test set's name, `#`, the test group's name. */
  function ExceptionKey(testSet: string, group: string): string {
    testSet + "#" + group
  }

  /** Names without `#` give distinct keys. */
  lemma ExceptionKeyInjective(s1: string, g1: string, s2: string, g2: string)
    requires '#' !in s1 && '#' !in s2
    requires ExceptionKey(s1, g1) == ExceptionKey(s2, g2)
    ensures s1 == s2 && g1 == g2
  {
    var k := ExceptionKey(s1, g1);
    assert k[|s1|] == '#' && k[|s2|] == '#';
    forall j | 0 <= j < |s1|
      ensures k[j] != '#'
    {
      assert k[j] == s1[j];
    }
    forall j | 0 <= j < |s2|
      ensures k[j] != '#'
    {
      assert k[j] == s2[j];
    }
    assert s1 == k[..|s1|] == s2;
    assert g1 == k[|s1| + 1..] == g2;
  }

  /** One `exception` element of the exceptions file. */
  datatype Exception = Exception(testSet: string, group: string, reason: string)

  /** The exceptions map; a later entry for the same set and group replaces an earlier one. */
  function ExceptionMap(es: seq<Exception>): map<string, string>
    decreases |es|
  {
    if |es| == 0 then map[]
    else
      var e := es[|es| - 1];
      ExceptionMap(es[..|es| - 1])[ExceptionKey(e.testSet, e.group) := e.reason]
  }

  /** A group is an exception exactly when some entry names it; the last such entry gives the reason. */
  lemma {:induction false} ExceptionLookup(es: seq<Exception>, testSet: string, group: string)
    ensures ExceptionKey(testSet, group) in ExceptionMap(es) <==>
      exists k :: 0 <= k < |es| && ExceptionKey(es[k].testSet, es[k].group) == ExceptionKey(testSet, group)
    ensures forall k ::
      (0 <= k < |es| && ExceptionKey(es[k].testSet, es[k].group) == ExceptionKey(testSet, group) &&
       (forall j :: k < j < |es| ==> ExceptionKey(es[j].testSet, es[j].group) != ExceptionKey(testSet, group)))
      ==> ExceptionMap(es)[ExceptionKey(testSet, group)] == es[k].reason
    decreases |es|
  {
    if |es| > 0 {
      var p := es[..|es| - 1];
      ExceptionLookup(p, testSet, group);
      assert forall k :: 0 <= k < |p| ==> p[k] == es[k];
    }
  }

  /** The exception recorded for a group, if any. */
  function ExceptionFor(exceptions: map<string, string>, testSet: string, group: string): Option<string> {
    var key := ExceptionKey(testSet, group);
    if key in exceptions then Some(exceptions[key]) else None
  }

  // ---------------------------------------------------------------------------
  // Default file names
  // ---------------------------------------------------------------------------

  /** A name given or defaulted gets `.xml` when it has no `.`, then `localDir/` when it has no `/`. */
  function Complete(name: string, localDir: Option<string>): (r: string)
    ensures '.' in r && '/' in r
  {
    var withExt := if '.' in name then name else name + ".xml";
    assert '.' in withExt by {
      if '.' !in name { assert withExt[|name|] == '.'; }
    }
    if '/' in withExt then withExt else Dom.JavaStr(localDir) + "/" + withExt
  }

  /** A completed name is complete: completing it again changes nothing. */
  lemma CompleteIdempotent(name: string, localDir: Option<string>)
    ensures Complete(Complete(name, localDir), localDir) == Complete(name, localDir)
  {
  }

  /** A name with a `.` and a `/` is used as given. */
  lemma CompleteKeepsFullNames(name: string, localDir: Option<string>)
    requires '.' in name && '/' in name
    ensures Complete(name, localDir) == name
  {
  }

  /** The exceptions file: `-exceptions:` or `exceptions`, `11` unless testing 1.0, `tv` with `-tv`. */
  function ExceptionsFile(exceptionFilename: Option<string>, versionUnderTest: string, useTV: bool,
                          localDir: Option<string>): string
  {
    var exfn := if exceptionFilename.Some? then exceptionFilename.value
      else "exceptions" + (if versionUnderTest == "1.0" then "" else "11") + (if useTV then "tv" else "");
    Complete(exfn, localDir)
  }

  /** The report file: `-reportfilename:` or `SaxonResults<product version>-<version under test>.xml`. */
  function ReportFile(reportFilename: Option<string>, productVersion: string, versionUnderTest: string,
                      localDir: Option<string>): string
  {
    var rfn := if reportFilename.Some? then reportFilename.value
      else "SaxonResults" + productVersion + "-" + versionUnderTest + ".xml";
    Complete(rfn, localDir)
  }

  /** A name of letters and digits only holds no `.` and no `/`. */
  predicate Plain(s: string) {
    forall k :: 0 <= k < |s| ==> ('a' <= s[k] <= 'z') || ('A' <= s[k] <= 'Z') || ('0' <= s[k] <= '9')
  }

  /** A plain default name gets `.xml` and the local directory. */
  lemma CompletePlain(name: string, dir: Option<string>)
    requires Plain(name)
    ensures Complete(name, dir) == Dom.JavaStr(dir) + "/" + name + ".xml"
  {
    var w := name + ".xml";
    assert '.' !in name && '/' !in name;
    assert '/' !in w by {
      forall k | 0 <= k < |w|
        ensures w[k] != '/'
      {
        if k < |name| { assert w[k] == name[k]; } else { assert w[k] == ".xml"[k - |name|]; }
      }
    }
    assert Dom.JavaStr(dir) + "/" + w == Dom.JavaStr(dir) + "/" + name + ".xml";
  }

  /** With no `-local:` the local directory prints as `null`. */
  lemma NoLocalDirectory(name: string)
    requires '.' !in name && '/' !in name
    ensures Complete(name, None) == "null/" + name + ".xml"
  {
    var w := name + ".xml";
    assert '/' !in w by {
      forall k | 0 <= k < |w|
        ensures w[k] != '/'
      {
        if k < |name| { assert w[k] == name[k]; } else { assert w[k] == ".xml"[k - |name|]; }
      }
    }
    assert "null" + "/" + w == "null/" + name + ".xml";
  }

  /** For XSD 1.0 without `-tv` the default is `exceptions.xml` in the local directory. */
  lemma DefaultExceptions10(dir: string)
    ensures ExceptionsFile(None, "1.0", false, Some(dir)) == dir + "/" + "exceptions" + ".xml"
  {
    var n := "exceptions" + "" + "";
    assert n == "exceptions";
    assert Plain(n);
    CompletePlain(n, Some(dir));
  }

  /** For XSD 1.1 with `-tv` it is `exceptions11tv.xml` in the local directory. */
  lemma DefaultExceptions11TV(dir: string)
    ensures ExceptionsFile(None, "1.1", true, Some(dir)) == dir + "/" + "exceptions11tv" + ".xml"
  {
    assert "1.1"[2] != "1.0"[2];
    var n := "exceptions" + "11" + "tv";
    assert n == "exceptions11tv";
    assert Plain(n);
    CompletePlain(n, Some(dir));
  }

  /** For XSD 1.1 without `-tv` it is `exceptions11.xml` in the local directory. */
  lemma DefaultExceptions11(dir: string)
    ensures ExceptionsFile(None, "1.1", false, Some(dir)) == dir + "/" + "exceptions11" + ".xml"
  {
    assert "1.1"[2] != "1.0"[2];
    var n := "exceptions" + "11" + "";
    assert n == "exceptions11";
    assert Plain(n);
    CompletePlain(n, Some(dir));
  }

  /** The default report file already ends in `.xml`; only the local directory is put in front. */
  lemma DefaultReportFile(productVersion: string, versionUnderTest: string, dir: string)
    requires '/' !in productVersion && '/' !in versionUnderTest
    ensures ReportFile(None, productVersion, versionUnderTest, Some(dir))
      == dir + "/" + "SaxonResults" + productVersion + "-" + versionUnderTest + ".xml"
  {
    var r := "SaxonResults" + productVersion + "-" + versionUnderTest + ".xml";
    assert r[|r| - 4] == '.';
    assert '/' !in r by {
      forall k | 0 <= k < |r|
        ensures r[k] != '/'
      {
        var a := "SaxonResults" + productVersion + "-";
        if k < 12 {
          assert r[k] == "SaxonResults"[k];
        } else if k < 12 + |productVersion| {
          assert r[k] == productVersion[k - 12];
        } else if k < |a| {
          assert r[k] == '-';
        } else if k < |a| + |versionUnderTest| {
          assert r[k] == versionUnderTest[k - |a|];
        } else {
          assert r[k] == ".xml"[k - |a| - |versionUnderTest|];
        }
      }
    }
  }

  // ---------------------------------------------------------------------------
  // The tests of one group, and the counters
  // ---------------------------------------------------------------------------

  /** A schema or instance test: the attributes and children the driver reads, and its success. */
  datatype Test = Test(name: string, version: Option<string>, status: Option<string>,
                       bugzilla: Option<string>, success: bool, expected: Option<string>)

  /** How a reported test came out. */
  datatype Outcome = Queried(bugzilla: Option<string>) | Same | Different

  /** One `testResult` element written. */
  datatype Entry =
    | NotRun(testSet: string, group: string, test: string, comment: string)
    | Reported(testSet: string, group: string, test: string, expectedValidity: string,
               actualValidity: string, outcome: Outcome)

  /** The counters and the results written so far. */
  datatype Tally = Tally(tests: int, successes: int, failures: int, queried: int, entries: seq<Entry>)

  /** The number of reported (not `notRun`) entries. */
  function ReportedCount(es: seq<Entry>): nat
    decreases |es|
  {
    if |es| == 0 then 0 else ReportedCount(es[..|es| - 1]) + (if es[|es| - 1].Reported? then 1 else 0)
  }

  /**
   * What the counters keep: each reported test was counted in exactly one
   * of the three outcome counters, and every entry was counted as a test.
   */
  predicate Balanced(t: Tally) {
    && t.successes >= 0 && t.failures >= 0 && t.queried >= 0
    && ReportedCount(t.entries) == t.successes + t.failures + t.queried
    && |t.entries| <= t.tests
  }

  /** The state of the loops over one group's tests. */
  datatype GroupState = GroupState(tally: Tally, schemaQueried: bool, schemaFailed: bool, bugzillaRef: Option<string>)

  /** The entry and counter change for a test that ran. */
  function Report(t: Tally, testSet: string, group: string, test: Test, queried: bool,
                  bugzillaRef: Option<string>): Tally
  {
    var expectedOutcome := ExpectedOutcome(test.expected);
    var ok := IsOk(expectedOutcome, test.success);
    var outcome := if queried then Queried(bugzillaRef) else if ok then Same else Different;
    var entry := Reported(testSet, group, test.name, expectedOutcome, if test.success then "valid" else "invalid", outcome);
    t.(entries := t.entries + [entry],
       queried := if queried then t.queried + 1 else t.queried,
       successes := if !queried && ok then t.successes + 1 else t.successes,
       failures := if !queried && !ok then t.failures + 1 else t.failures)
  }

  /** A schema test that ran, and was not an exception. */
  predicate SchemaTestRan(exception: Option<string>, test: Test, versionUnderTest: string) {
    exception.None? && TestRuns(test.version, versionUnderTest)
  }

  /** One schema test: `queried` and `disputed-test` statuses both count as queried. */
  function SchemaStep(st: GroupState, testSet: string, group: string, exception: Option<string>,
                      test: Test, versionUnderTest: string): GroupState
  {
    var t := st.tally.(tests := st.tally.tests + 1);
    if exception.Some? then
      st.(tally := t.(entries := t.entries + [NotRun(testSet, group, test.name, exception.value)]), bugzillaRef := None)
    else if !TestRuns(test.version, versionUnderTest) then
      st.(tally := t, bugzillaRef := None)
    else
      var queried := test.status == Some("queried") || test.status == Some("disputed-test");
      GroupState(Report(t, testSet, group, test, queried, test.bugzilla),
                 st.schemaQueried || queried, st.schemaFailed || !test.success, test.bugzilla)
  }

  /**
   * One instance test: queried when its own status is `queried` or any
   * schema test of the group was queried; its bug reference is its own,
   * or else the one left by the tests before it.
   */
  function InstanceStep(st: GroupState, testSet: string, group: string, exception: Option<string>,
                        test: Test, versionUnderTest: string): GroupState
  {
    var t := st.tally.(tests := st.tally.tests + 1);
    if exception.Some? then
      st.(tally := t.(entries := t.entries + [NotRun(testSet, group, test.name, exception.value)]))
    else if !TestRuns(test.version, versionUnderTest) then
      st.(tally := t)
    else
      var queried := test.status == Some("queried") || st.schemaQueried;
      var bug := if test.bugzilla.Some? then test.bugzilla else st.bugzillaRef;
      st.(tally := Report(t, testSet, group, test, queried, bug), bugzillaRef := bug)
  }

  function RunSchemaTests(st: GroupState, testSet: string, group: string, exception: Option<string>,
                          tests: seq<Test>, versionUnderTest: string): GroupState
    decreases |tests|
  {
    if |tests| == 0 then st
    else RunSchemaTests(SchemaStep(st, testSet, group, exception, tests[0], versionUnderTest),
                        testSet, group, exception, tests[1..], versionUnderTest)
  }

  function RunInstanceTests(st: GroupState, testSet: string, group: string, exception: Option<string>,
                            tests: seq<Test>, versionUnderTest: string): GroupState
    decreases |tests|
  {
    if |tests| == 0 then st
    else RunInstanceTests(InstanceStep(st, testSet, group, exception, tests[0], versionUnderTest),
                          testSet, group, exception, tests[1..], versionUnderTest)
  }

  /** One test group: its schema tests, then its instance tests unless a schema test failed. */
  function RunGroupSpec(t: Tally, testSet: string, group: string, exception: Option<string>,
                        schemaTests: seq<Test>, instanceTests: seq<Test>, versionUnderTest: string): GroupState
  {
    var s := RunSchemaTests(GroupState(t, false, false, None), testSet, group, exception, schemaTests, versionUnderTest);
    if s.schemaFailed then s else RunInstanceTests(s, testSet, group, exception, instanceTests, versionUnderTest)
  }

  lemma ReportedSnoc(es: seq<Entry>, e: Entry)
    ensures ReportedCount(es + [e]) == ReportedCount(es) + (if e.Reported? then 1 else 0)
  {
    assert (es + [e])[..|es|] == es;
  }

  /** A reported test moves exactly one of the three counters by one. */
  lemma ReportBalanced(t: Tally, testSet: string, group: string, test: Test, queried: bool, bugzillaRef: Option<string>)
    requires Balanced(t) && |t.entries| < t.tests
    ensures var t' := Report(t, testSet, group, test, queried, bugzillaRef);
      && Balanced(t') && t'.tests == t.tests
      && (t'.successes - t.successes) + (t'.failures - t.failures) + (t'.queried - t.queried) == 1
      && (queried <==> t'.queried == t.queried + 1)
  {
    var e := Report(t, testSet, group, test, queried, bugzillaRef).entries;
    ReportedSnoc(t.entries, e[|e| - 1]);
    assert t.entries + [e[|e| - 1]] == e;
  }

  /** Each schema test counts once as a test, and at most once in one outcome counter. */
  lemma SchemaStepBalanced(st: GroupState, testSet: string, group: string, exception: Option<string>,
                           test: Test, versionUnderTest: string)
    requires Balanced(st.tally)
    ensures Balanced(SchemaStep(st, testSet, group, exception, test, versionUnderTest).tally)
    ensures SchemaStep(st, testSet, group, exception, test, versionUnderTest).tally.tests == st.tally.tests + 1
    ensures SchemaStep(st, testSet, group, exception, test, versionUnderTest).schemaFailed
      <==> st.schemaFailed || (SchemaTestRan(exception, test, versionUnderTest) && !test.success)
  {
    var t := st.tally.(tests := st.tally.tests + 1);
    var st' := SchemaStep(st, testSet, group, exception, test, versionUnderTest);
    if exception.Some? {
      var e := NotRun(testSet, group, test.name, exception.value);
      ReportedSnoc(t.entries, e);
      assert st'.tally == t.(entries := t.entries + [e]) && st'.schemaFailed == st.schemaFailed;
    } else if TestRuns(test.version, versionUnderTest) {
      var queried := test.status == Some("queried") || test.status == Some("disputed-test");
      ReportBalanced(t, testSet, group, test, queried, test.bugzilla);
      assert st'.tally == Report(t, testSet, group, test, queried, test.bugzilla);
      assert st'.schemaFailed == (st.schemaFailed || !test.success);
    } else {
      assert st'.tally == t && st'.schemaFailed == st.schemaFailed;
    }
  }

  lemma InstanceStepBalanced(st: GroupState, testSet: string, group: string, exception: Option<string>,
                             test: Test, versionUnderTest: string)
    requires Balanced(st.tally)
    ensures var st' := InstanceStep(st, testSet, group, exception, test, versionUnderTest);
      && Balanced(st'.tally) && st'.tally.tests == st.tally.tests + 1
      && st'.schemaQueried == st.schemaQueried && st'.schemaFailed == st.schemaFailed
      && (st.schemaQueried ==> st'.tally.successes == st.tally.successes && st'.tally.failures == st.tally.failures)
  {
    var t := st.tally.(tests := st.tally.tests + 1);
    var st' := InstanceStep(st, testSet, group, exception, test, versionUnderTest);
    assert st'.schemaQueried == st.schemaQueried && st'.schemaFailed == st.schemaFailed;
    if exception.Some? {
      var e := NotRun(testSet, group, test.name, exception.value);
      ReportedSnoc(t.entries, e);
      assert st'.tally == t.(entries := t.entries + [e]);
    } else if TestRuns(test.version, versionUnderTest) {
      var queried := test.status == Some("queried") || st.schemaQueried;
      var bug := if test.bugzilla.Some? then test.bugzilla else st.bugzillaRef;
      ReportBalanced(t, testSet, group, test, queried, bug);
      assert st'.tally == Report(t, testSet, group, test, queried, bug);
    } else {
      assert st'.tally == t;
    }
  }

  /**
   * The schema tests keep the counters balanced and count every test; the
   * group's schema has failed exactly when some schema test that ran failed.
   */
  lemma {:induction false} RunSchemaTestsBalanced(st: GroupState, testSet: string, group: string, exception: Option<string>,
                                                  tests: seq<Test>, versionUnderTest: string)
    requires Balanced(st.tally)
    ensures var st' := RunSchemaTests(st, testSet, group, exception, tests, versionUnderTest);
      && Balanced(st'.tally) && st'.tally.tests == st.tally.tests + |tests|
      && (st'.schemaFailed <==>
            (st.schemaFailed ||
             exists k :: 0 <= k < |tests| && SchemaTestRan(exception, tests[k], versionUnderTest) && !tests[k].success))
    decreases |tests|
  {
    if |tests| > 0 {
      var st1 := SchemaStep(st, testSet, group, exception, tests[0], versionUnderTest);
      SchemaStepBalanced(st, testSet, group, exception, tests[0], versionUnderTest);
      RunSchemaTestsBalanced(st1, testSet, group, exception, tests[1..], versionUnderTest);
      assert forall k :: 1 <= k < |tests| ==> tests[1..][k - 1] == tests[k];
      if exists k :: 0 <= k < |tests[1..]| && SchemaTestRan(exception, tests[1..][k], versionUnderTest) && !tests[1..][k].success {
        var k :| 0 <= k < |tests[1..]| && SchemaTestRan(exception, tests[1..][k], versionUnderTest) && !tests[1..][k].success;
        assert tests[k + 1] == tests[1..][k];
      }
    }
  }

  /**
   * The instance tests keep the counters balanced and count every test;
   * after a queried schema test no instance test is a success or a failure.
   */
  lemma {:induction false} RunInstanceTestsBalanced(st: GroupState, testSet: string, group: string, exception: Option<string>,
                                                    tests: seq<Test>, versionUnderTest: string)
    requires Balanced(st.tally)
    ensures var st' := RunInstanceTests(st, testSet, group, exception, tests, versionUnderTest);
      && Balanced(st'.tally) && st'.tally.tests == st.tally.tests + |tests|
      && st'.schemaQueried == st.schemaQueried
      && (st.schemaQueried ==> st'.tally.successes == st.tally.successes && st'.tally.failures == st.tally.failures)
    decreases |tests|
  {
    if |tests| > 0 {
      var st1 := InstanceStep(st, testSet, group, exception, tests[0], versionUnderTest);
      InstanceStepBalanced(st, testSet, group, exception, tests[0], versionUnderTest);
      RunInstanceTestsBalanced(st1, testSet, group, exception, tests[1..], versionUnderTest);
    }
  }

  /**
   * A group keeps the counters balanced. The instance tests run only when
   * no schema test that ran failed; otherwise only the schema tests count.
   */
  lemma GroupBalanced(t: Tally, testSet: string, group: string, exception: Option<string>,
                      schemaTests: seq<Test>, instanceTests: seq<Test>, versionUnderTest: string)
    requires Balanced(t)
    ensures var g := RunGroupSpec(t, testSet, group, exception, schemaTests, instanceTests, versionUnderTest);
      && Balanced(g.tally)
      && g.tally.tests == t.tests + |schemaTests| +
           (if exists k :: 0 <= k < |schemaTests| && SchemaTestRan(exception, schemaTests[k], versionUnderTest) && !schemaTests[k].success
            then 0 else |instanceTests|)
  {
    var s := RunSchemaTests(GroupState(t, false, false, None), testSet, group, exception, schemaTests, versionUnderTest);
    RunSchemaTestsBalanced(GroupState(t, false, false, None), testSet, group, exception, schemaTests, versionUnderTest);
    if !s.schemaFailed {
      RunInstanceTestsBalanced(s, testSet, group, exception, instanceTests, versionUnderTest);
    }
  }

  /** The driver's counters and results stream. */
  class Driver {
    var countTests: int
    var countSuccesses: int
    var countFailures: int
    var queriedCount: int
    var results: seq<Entry>

    function State(): Tally
      reads this
    {
      Tally(countTests, countSuccesses, countFailures, queriedCount, results)
    }

    constructor()
      ensures State() == Tally(0, 0, 0, 0, [])
      ensures Balanced(State())
    {
      countTests := 0;
      countSuccesses := 0;
      countFailures := 0;
      queriedCount := 0;
      results := [];
    }

    /** Writes the entry for a test that ran and moves its counter. */
    method WriteResult(testSet: string, group: string, test: Test, queried: bool, bugzillaRef: Option<string>)
      modifies this
      ensures State() == Report(old(State()), testSet, group, test, queried, bugzillaRef)
    {
      var expectedOutcome := ExpectedOutcome(test.expected);
      var ok := IsOk(expectedOutcome, test.success);
      var outcome := if queried then Queried(bugzillaRef) else if ok then Same else Different;
      results := results + [Reported(testSet, group, test.name, expectedOutcome,
                                     if test.success then "valid" else "invalid", outcome)];
      if queried {
        queriedCount := queriedCount + 1;
      } else {
        if ok {
          countSuccesses := countSuccesses + 1;
        } else {
          countFailures := countFailures + 1;
        }
      }
    }

    /** The body of the loop over the schema tests, for one test. */
    method SchemaTest(testSet: string, group: string, exception: Option<string>, test: Test, versionUnderTest: string,
                      queried0: bool, failed0: bool, bug0: Option<string>)
      returns (schemaQueried: bool, schemaFailed: bool, bugzillaRef: Option<string>)
      modifies this
      ensures GroupState(State(), schemaQueried, schemaFailed, bugzillaRef)
        == SchemaStep(GroupState(old(State()), queried0, failed0, bug0), testSet, group, exception, test, versionUnderTest)
    {
      schemaQueried, schemaFailed := queried0, failed0;
      countTests := countTests + 1;
      bugzillaRef := None;
      if exception.Some? {
        results := results + [NotRun(testSet, group, test.name, exception.value)];
      } else if TestRuns(test.version, versionUnderTest) {
        var queried := test.status == Some("queried") || test.status == Some("disputed-test");
        bugzillaRef := test.bugzilla;
        if queried {
          schemaQueried := true;
        }
        WriteResult(testSet, group, test, queried, bugzillaRef);
        if !test.success {
          schemaFailed := true;
        }
      }
    }

    /** The body of the loop over the instance tests, for one test. */
    method InstanceTest(testSet: string, group: string, exception: Option<string>, test: Test, versionUnderTest: string,
                        schemaQueried: bool, schemaFailed: bool, bug0: Option<string>)
      returns (bugzillaRef: Option<string>)
      modifies this
      ensures GroupState(State(), schemaQueried, schemaFailed, bugzillaRef)
        == InstanceStep(GroupState(old(State()), schemaQueried, schemaFailed, bug0), testSet, group, exception, test, versionUnderTest)
    {
      bugzillaRef := bug0;
      countTests := countTests + 1;
      if exception.Some? {
        results := results + [NotRun(testSet, group, test.name, exception.value)];
      } else if TestRuns(test.version, versionUnderTest) {
        var queried := test.status == Some("queried");
        if test.bugzilla.Some? {
          bugzillaRef := test.bugzilla;
        }
        queried := queried || schemaQueried;
        WriteResult(testSet, group, test, queried, bugzillaRef);
      }
    }

    /** The loops over one test group's schema tests, then its instance tests. */
    method RunGroup(testSet: string, group: string, exceptions: map<string, string>,
                    schemaTests: seq<Test>, instanceTests: seq<Test>, versionUnderTest: string)
      modifies this
      ensures State() == RunGroupSpec(old(State()), testSet, group, ExceptionFor(exceptions, testSet, group),
                                      schemaTests, instanceTests, versionUnderTest).tally
    {
      var exception := ExceptionFor(exceptions, testSet, group);
      ghost var t0 := State();
      var schemaQueried := false;
      var schemaFailed := false;
      var bugzillaRef: Option<string> := None;
      var i := 0;
      assert schemaTests[0..] == schemaTests;
      while i < |schemaTests|
        invariant 0 <= i <= |schemaTests|
        invariant RunSchemaTests(GroupState(State(), schemaQueried, schemaFailed, bugzillaRef),
                                 testSet, group, exception, schemaTests[i..], versionUnderTest)
          == RunSchemaTests(GroupState(t0, false, false, None), testSet, group, exception, schemaTests, versionUnderTest)
      {
        assert schemaTests[i..][0] == schemaTests[i] && schemaTests[i..][1..] == schemaTests[i + 1..];
        schemaQueried, schemaFailed, bugzillaRef :=
          SchemaTest(testSet, group, exception, schemaTests[i], versionUnderTest, schemaQueried, schemaFailed, bugzillaRef);
        i := i + 1;
      }
      if !schemaFailed {
        ghost var s := GroupState(State(), schemaQueried, schemaFailed, bugzillaRef);
        var j := 0;
        assert instanceTests[0..] == instanceTests;
        while j < |instanceTests|
          invariant 0 <= j <= |instanceTests|
          invariant RunInstanceTests(GroupState(State(), schemaQueried, schemaFailed, bugzillaRef),
                                     testSet, group, exception, instanceTests[j..], versionUnderTest)
            == RunInstanceTests(s, testSet, group, exception, instanceTests, versionUnderTest)
        {
          assert instanceTests[j..][0] == instanceTests[j] && instanceTests[j..][1..] == instanceTests[j + 1..];
          bugzillaRef := InstanceTest(testSet, group, exception, instanceTests[j], versionUnderTest,
                                      schemaQueried, schemaFailed, bugzillaRef);
          j := j + 1;
        }
      }
    }
  }
}
