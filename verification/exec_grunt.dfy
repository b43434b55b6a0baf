/** `ExecGruntMojo`: runs grunt, either as its own executable or through
    node, with an optional target, colour switch and user options, and
    success codes that can tolerate grunt's task-failure exit values. */
module ExecGrunt {
  import opened Wrappers
  import opened Strings
  import opened Elements
  import Normalization
  import ExecutableMojo

  /** Grunt exits with 3 when a task fails and 6 on a warning. */
  const IgnoreTasksErrorsCodes: seq<string> := ["0", "3", "6"]

  const IgnoreAllErrorsCodes: seq<string> := ["0", "1", "2", "3", "4", "5", "6"]

  /** The mojo's parameters (`target` and `gruntOptions` may be null). */
  datatype GruntMojo = GruntMojo(
    target: Option<string>,
    nodeExecutable: string,
    gruntExecutable: string,
    runGruntWithNode: bool,
    gruntOptions: Option<seq<string>>,
    ignoreTasksErrors: bool,
    ignoreAllErrors: bool,
    showColors: bool)

  /** `getExecutable`. */
  function GetExecutable(m: GruntMojo): string {
    if m.runGruntWithNode then m.nodeExecutable else m.gruntExecutable
  }

  predicate HasTarget(m: GruntMojo) {
    m.target.Some? && |m.target.value| > 0
  }

  function Options(m: GruntMojo): seq<string> {
    m.gruntOptions.GetOr([])
  }

  /** How many fixed arguments precede the grunt options. */
  function FixedCount(m: GruntMojo): nat {
    (if m.runGruntWithNode then 1 else 0) + (if HasTarget(m) then 1 else 0) + (if m.showColors then 0 else 1)
  }

  /** `args` holds one argument per option, normalised with "=", in
      order. */
  predicate NormalizedArguments(args: seq<Element>, options: seq<string>) {
    |args| == |options| &&
    forall i :: 0 <= i < |options| ==> args[i] == Argument(Normalization.Normalize(options[i], "="))
  }

  /** `appendOptions`: every option, normalised with "=", in order. */
  function AppendOptions(options: seq<string>): (r: seq<Element>)
    ensures NormalizedArguments(r, options)
  {
    seq(|options|, i requires 0 <= i < |options| => Argument(Normalization.Normalize(options[i], "=")))
  }

  /** The arguments before the options: the grunt script (when run
      through node), the target (when non-empty), "--no-color" (unless
      colours are shown). */
  function FixedArguments(m: GruntMojo): (r: seq<Element>)
    ensures |r| == FixedCount(m)
    ensures m.runGruntWithNode ==> r[0] == Argument(m.gruntExecutable)
    ensures HasTarget(m) ==> r[if m.runGruntWithNode then 1 else 0] == Argument(m.target.value)
    ensures !m.showColors ==> r[|r| - 1] == Argument("--no-color")
  {
    (if m.runGruntWithNode then [Argument(m.gruntExecutable)] else [])
    + (if HasTarget(m) then [Argument(m.target.value)] else [])
    + (if !m.showColors then [Argument("--no-color")] else [])
  }

  /** `getArguments`: the fixed arguments, then the options. A null option
      list contributes nothing, as an empty one does. */
  function GetArguments(m: GruntMojo): (r: seq<Element>)
    ensures |r| == FixedCount(m) + |Options(m)|
    ensures m.runGruntWithNode ==> r[0] == Argument(m.gruntExecutable)
    ensures HasTarget(m) ==> r[if m.runGruntWithNode then 1 else 0] == Argument(m.target.value)
    ensures !m.showColors ==> r[FixedCount(m) - 1] == Argument("--no-color")
    ensures NormalizedArguments(r[FixedCount(m)..], Options(m))
  {
    var fixed := FixedArguments(m);
    var options := AppendOptions(Options(m));
    assert (fixed + options)[..|fixed|] == fixed;
    assert (fixed + options)[|fixed|..] == options;
    fixed + options
  }

  /** Every argument handed to exec-maven-plugin after the fixed ones is a
      single token: no option still has a whitespace-separated value. */
  lemma OptionsSurviveExec(m: GruntMojo)
    ensures forall i :: FixedCount(m) <= i < |GetArguments(m)| ==>
      !Normalization.WhitespacedOption(GetArguments(m)[i].text)
  {
    var r := GetArguments(m);
    forall i | FixedCount(m) <= i < |r|
      ensures !Normalization.WhitespacedOption(r[i].text)
    {
      var j := i - FixedCount(m);
      assert r[i] == r[FixedCount(m)..][j];
      Normalization.NormalizedIsNotWhitespaced(Options(m)[j], "=");
    }
  }

  /** `customSuccessCodes`: all of 0..6 when every error is ignored, 0, 3, 6
      when only task errors are, otherwise no override. */
  function CustomSuccessCodes(m: GruntMojo): (r: Option<seq<string>>)
    ensures m.ignoreAllErrors ==> r == Some(IgnoreAllErrorsCodes)
    ensures !m.ignoreAllErrors && m.ignoreTasksErrors ==> r == Some(IgnoreTasksErrorsCodes)
    ensures r.None? <==> !m.ignoreAllErrors && !m.ignoreTasksErrors
  {
    if m.ignoreAllErrors then Some(IgnoreAllErrorsCodes)
    else if m.ignoreTasksErrors then Some(IgnoreTasksErrorsCodes)
    else None
  }

  /** Every override keeps 0 as a success, and tolerating task errors is a
      weaker policy than tolerating all errors. */
  lemma SuccessCodesKeepZero(m: GruntMojo)
    ensures CustomSuccessCodes(m).Some? ==> "0" in CustomSuccessCodes(m).value
    ensures CustomSuccessCodes(m).Some? ==> forall c :: c in CustomSuccessCodes(m).value ==> c in IgnoreAllErrorsCodes
  {
  }

  /** The configuration for exec-maven-plugin: grunt or node is the program
      (behind `cmd /C` on Windows), and a `successCodes` block closes the
      configuration exactly when an ignore flag is set. */
  lemma GruntConfiguration(m: GruntMojo, osName: string, gruntBuildDirectory: string)
    ensures var config := ExecutableMojo.ExecuteConfiguration(osName, GetExecutable(m), GetArguments(m),
                                                              gruntBuildDirectory, CustomSuccessCodes(m));
      && (|config| == 4 <==> m.ignoreAllErrors || m.ignoreTasksErrors)
      && (!ExecutableMojo.IsWindows(osName) ==>
            && config[0].text == (if m.runGruntWithNode then m.nodeExecutable else m.gruntExecutable)
            && config[1] == Node("arguments", GetArguments(m)))
      && (ExecutableMojo.IsWindows(osName) ==>
            config[1].Node? && config[1].name == "arguments" && config[1].children[2..] == GetArguments(m))
      && (|config| == 4 ==> config[3].name == "successCodes" && Text("successCode", "0") in config[3].children)
  {
    var config := ExecutableMojo.ExecuteConfiguration(osName, GetExecutable(m), GetArguments(m),
                                                      gruntBuildDirectory, CustomSuccessCodes(m));
    if |config| == 4 {
      assert config[3].children[0] == Text("successCode", "0");
    }
  }

  predicate IsDigit(c: char) {
    '0' <= c <= '9'
  }

  /** The end of the run of digits that starts at `i`. */
  function DigitRunEnd(s: string, i: nat): (k: nat)
    requires i <= |s|
    ensures i <= k <= |s|
    ensures forall j :: i <= j < k ==> IsDigit(s[j])
    ensures k == |s| || !IsDigit(s[k])
    decreases |s| - i
  {
    if i == |s| || !IsDigit(s[i]) then i else DigitRunEnd(s, i + 1)
  }

  /** `v` is three non-empty digit runs separated by `p` and `q`. */
  predicate TripleShape(v: string, p: int, q: int) {
    0 < p && p + 1 < q && q + 1 < |v| && v[p] == '.' && v[q] == '.'
    && (forall j :: 0 <= j < |v| && j != p && j != q ==> IsDigit(v[j]))
  }

  /** `\d+\.\d+\.\d+` read at `j`, each run as long as possible. */
  function TripleAt(s: string, j: nat): (r: Option<string>)
    requires j <= |s|
    ensures r.Some? ==> exists p, q :: TripleShape(r.value, p, q)
    ensures r.Some? ==> StartsWith(s[j..], r.value)
  {
    var a := DigitRunEnd(s, j);
    if a == j || a == |s| || s[a] != '.' then None
    else
      var b := DigitRunEnd(s, a + 1);
      if b == a + 1 || b == |s| || s[b] != '.' then None
      else
        var c := DigitRunEnd(s, b + 1);
        if c == b + 1 then None
        else
          assert TripleShape(s[j..c], a - j, b - j);
          Some(s[j..c])
  }

  /** What the pattern captures when "grunt" is matched at index `i`: the
      version after "grunt " or "grunt v". */
  function VersionAt(s: string, i: int): Option<string> {
    if !OccursAt(s, "grunt ", i) then None
    else if i + 6 < |s| && s[i + 6] == 'v' then TripleAt(s, i + 7)
    else TripleAt(s, i + 6)
  }

  /** No match starts strictly between `i` and `n`. */
  predicate NoVersionBetween(s: string, i: int, n: int) {
    forall k :: i < k < n ==> VersionAt(s, k).None?
  }

  /** The last match at an index below `n`, as the greedy `.*` finds it. */
  function LastVersionBelow(s: string, n: nat): (r: Option<string>)
    ensures r.None? <==> NoVersionBetween(s, -1, n)
    ensures r.Some? ==> exists i: nat :: i < n && VersionAt(s, i) == r && NoVersionBetween(s, i, n)
    decreases n
  {
    if n == 0 then None
    else if VersionAt(s, n - 1).Some? then
      assert NoVersionBetween(s, n - 1, n);
      VersionAt(s, n - 1)
    else
      NoVersionStep(s, n);
      LastVersionBelow(s, n - 1)
  }

  /** Extending the searched range by a non-matching index changes nothing. */
  lemma NoVersionStep(s: string, n: nat)
    requires n > 0 && VersionAt(s, n - 1).None?
    ensures forall i :: -1 <= i < n - 1 ==> (NoVersionBetween(s, i, n - 1) <==> NoVersionBetween(s, i, n))
  {
  }

  /** `".*grunt v?(\\d+\\.\\d+\\.\\d+)-?.*$"` matched against the whole
      response: the version following the last "grunt " occurrence that is
      followed by one, or null. */
  function ParseVersion(response: string): (r: Option<string>)
    ensures r.None? <==> NoVersionBetween(response, -1, |response| + 1)
    ensures r.Some? ==> exists p, q :: TripleShape(r.value, p, q)
    ensures r.Some? ==> exists i: nat :: VersionAt(response, i) == r && NoVersionBetween(response, i, |response| + 1)
  {
    LastVersionBelow(response, |response| + 1)
  }

  /** The match at `i` is the one taken when none follows it below `n`. */
  lemma {:induction false} LastVersionIsLastMatch(s: string, i: nat, n: nat)
    requires i < n && VersionAt(s, i).Some? && NoVersionBetween(s, i, n)
    ensures LastVersionBelow(s, n) == VersionAt(s, i)
    decreases n
  {
    if i < n - 1 {
      assert VersionAt(s, n - 1).None?;
      LastVersionIsLastMatch(s, i, n - 1);
    }
  }

  /** The local grunt version in the example response. */
  lemma LocalVersionExample(s: string)
    requires s == "grunt-cli v0.1.13\ngrunt v0.4.5"
    ensures VersionAt(s, 18) == Some("0.4.5")
  {
    assert |s| == 30;
    assert s[18..24] == "grunt ";
    assert DigitRunEnd(s, 25) == 26;
    assert DigitRunEnd(s, 27) == 28;
    assert DigitRunEnd(s, 29) == 30;
    assert s[24] == 'v' && s[26] == '.' && s[28] == '.';
    assert s[25..30] == "0.4.5";
  }

  /** Nothing in the example response after the local version matches. */
  lemma NothingAfterLocalVersion(s: string)
    requires s == "grunt-cli v0.1.13\ngrunt v0.4.5"
    ensures NoVersionBetween(s, 18, |s| + 1)
  {
    forall i | 18 < i <= 30
      ensures VersionAt(s, i).None?
    {
      if i + 6 <= 30 {
        assert s[i] != 'g';
        assert s[i..i + 6][0] == s[i];
      }
    }
  }

  /** `grunt --version` prints the CLI version and then the local grunt
      version; the last one is taken. */
  lemma ParseVersionExample(s: string)
    requires s == "grunt-cli v0.1.13\ngrunt v0.4.5"
    ensures ParseVersion(s) == Some("0.4.5")
  {
    LocalVersionExample(s);
    NothingAfterLocalVersion(s);
    LastVersionIsLastMatch(s, 18, |s| + 1);
  }

  /** `getVersion()` as written: the response of `grunt --version` (null on
      any failure) is handed straight to `Pattern.matcher`, which throws a
      `NullPointerException` for null instead of returning null. */
  datatype NullPointerException = NullPointerException

  function GetVersionAsWritten(outcome: ExecutableMojo.ProcessOutcome): (r: Result<Option<string>, NullPointerException>)
    ensures r.Failure? <==> !(outcome.Exited? && outcome.exitValue == 0)
    ensures r.Success? ==> r.value == ParseVersion(outcome.stdout)
  {
    match ExecutableMojo.GetVersion(outcome)
    case None => Failure(NullPointerException)
    case Some(response) => Success(ParseVersion(response))
  }

  /** When grunt is missing the documented "null if the version was not able
      to be determined" becomes an exception. */
  lemma GetVersionAsWrittenThrows()
    ensures GetVersionAsWritten(ExecutableMojo.SpawnFailed).Failure?
    ensures GetVersionAsWritten(ExecutableMojo.Exited("", "not found", 127)).Failure?
  {
  }

  /** `getVersion()` as intended: null whenever the command failed or its
      output carries no version. */
  function GetVersion(outcome: ExecutableMojo.ProcessOutcome): (r: Option<string>)
    ensures r.Some? ==> outcome.Exited? && outcome.exitValue == 0 && r == ParseVersion(outcome.stdout)
    ensures outcome.Exited? && outcome.exitValue == 0 ==> r == ParseVersion(outcome.stdout)
    ensures r.Some? ==> exists p, q :: TripleShape(r.value, p, q)
  {
    match ExecutableMojo.GetVersion(outcome)
    case None => None
    case Some(response) => ParseVersion(response)
  }

  /** The corrected version never throws where the written one does, and
      agrees with it whenever the written one returns. */
  lemma GetVersionAgrees(outcome: ExecutableMojo.ProcessOutcome)
    ensures GetVersionAsWritten(outcome).Success? ==> GetVersionAsWritten(outcome).value == GetVersion(outcome)
    ensures GetVersionAsWritten(outcome).Failure? ==> GetVersion(outcome).None?
  {
  }
}
