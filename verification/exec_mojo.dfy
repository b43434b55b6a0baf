/** `AbstractExecutableMojo` and `ExecutionException`: how an external tool is
    invoked. Through exec-maven-plugin the plugin passes an `executable`, an
    `arguments` list, a `workingDirectory` and optionally a `successCodes`
    block; on Windows the tool is wrapped as `cmd /C tool args...`. The direct
    `ProcessBuilder` route used for version queries has the same shape, and
    only exit value 0 counts as success there. */
module ExecutableMojo {
  import opened Wrappers
  import opened Strings
  import opened Elements

  const WindowsOsFamily: string := "Windows"

  /** The host is a Windows-family system: the upper-cased OS name contains
      "WINDOWS". */
  function IsWindows(osName: string): (b: bool)
    ensures b <==> exists i :: OccursAt(ToUpper(osName), "WINDOWS", i)
  {
    assert ToUpper(WindowsOsFamily) == "WINDOWS";
    Contains(ToUpper(osName), ToUpper(WindowsOsFamily))
  }

  lemma ToUpperIdempotent(s: string)
    ensures ToUpper(ToUpper(s)) == ToUpper(s)
  {
    forall i | 0 <= i < |s|
      ensures ToUpper(ToUpper(s))[i] == ToUpper(s)[i]
    {
      UpperCharIdempotent(s[i]);
    }
  }

  /** The test ignores letter case: upper-casing the OS name first changes
      nothing. */
  lemma IsWindowsIgnoresCase(osName: string)
    ensures IsWindows(ToUpper(osName)) == IsWindows(osName)
  {
    ToUpperIdempotent(osName);
  }

  /** Concrete OS names: "Windows 10" is Windows-family, "Linux" is not. */
  lemma IsWindowsExamples()
    ensures IsWindows("Windows 10")
    ensures IsWindows("windows")
    ensures !IsWindows("Linux")
  {
    assert OccursAt(ToUpper("Windows 10"), "WINDOWS", 0);
    assert OccursAt(ToUpper("windows"), "WINDOWS", 0);
  }

  /** `concat(array1, array2)`. */
  function Concat<T>(a: seq<T>, b: seq<T>): (r: seq<T>)
    ensures |r| == |a| + |b|
    ensures r[..|a|] == a && r[|a|..] == b
  {
    a + b
  }

  /** `buildConfigForProperOS`: the tool runs directly, so the command
      line is the tool followed by its arguments. */
  function ConfigForProperOS(executable: string, arguments: seq<Element>): (r: seq<Element>)
    ensures |r| == 2 && r[0].Text? && r[0].name == "executable" && r[1].Node? && r[1].name == "arguments"
    ensures [r[0].text] + ArgumentTexts(r[1].children) == [executable] + ArgumentTexts(arguments)
  {
    [Text("executable", executable), Node("arguments", arguments)]
  }

  /** `buildConfigForWindows`: `cmd` runs `/C tool args...`, so the command
      line is `cmd /C`, the tool, then its arguments. */
  function ConfigForWindows(executable: string, arguments: seq<Element>): (r: seq<Element>)
    ensures |r| == 2 && r[0].Text? && r[0].name == "executable" && r[1].Node? && r[1].name == "arguments"
    ensures [r[0].text] + ArgumentTexts(r[1].children) == ["cmd", "/C", executable] + ArgumentTexts(arguments)
  {
    var wrapped := Concat([Argument("/C"), Argument(executable)], arguments);
    assert ArgumentTexts(wrapped) == ["/C", executable] + ArgumentTexts(arguments);
    [Text("executable", "cmd"), Node("arguments", wrapped)]
  }

  /** `buildConfigForOS`: the OS-specific part, then the working directory. */
  function ConfigForOS(osName: string, executable: string, arguments: seq<Element>,
                       gruntBuildDirectory: string): (r: seq<Element>)
    ensures |r| == 3
    ensures r[0] == Text("executable", if IsWindows(osName) then "cmd" else executable)
    ensures !IsWindows(osName) ==> r[1] == Node("arguments", arguments)
    ensures IsWindows(osName) ==>
      r[1].Node? && r[1].name == "arguments"
      && |r[1].children| == |arguments| + 2
      && r[1].children[0] == Argument("/C")
      && r[1].children[1] == Argument(executable)
      && r[1].children[2..] == arguments
    ensures r[2] == Text("workingDirectory", gruntBuildDirectory)
  {
    var os := if IsWindows(osName) then ConfigForWindows(executable, arguments)
              else ConfigForProperOS(executable, arguments);
    Concat(os, [Text("workingDirectory", gruntBuildDirectory)])
  }

  /** `overwriteSuccessCodes`: no block for the default policy, otherwise one
      `successCode` child per code, in order. */
  function OverwriteSuccessCodes(customCodes: Option<seq<string>>): (r: Option<Element>)
    ensures r.None? <==> customCodes.None?
    ensures r.Some? ==>
      r.value.Node? && r.value.name == "successCodes"
      && |r.value.children| == |customCodes.value|
      && forall i :: 0 <= i < |customCodes.value| ==>
           r.value.children[i] == Text("successCode", customCodes.value[i])
  {
    match customCodes
    case None => None
    case Some(codes) =>
      Some(Node("successCodes", seq(|codes|, i requires 0 <= i < |codes| => Text("successCode", codes[i]))))
  }

  /** The configuration `execute()` hands to exec-maven-plugin: the
      OS-specific elements and the working directory, then the success-code
      block when the tool asks for one. */
  function ExecuteConfiguration(osName: string, executable: string, arguments: seq<Element>,
                                gruntBuildDirectory: string,
                                customCodes: Option<seq<string>>): (r: seq<Element>)
    ensures |r| == if customCodes.Some? then 4 else 3
    ensures r[..3] == ConfigForOS(osName, executable, arguments, gruntBuildDirectory)
    ensures customCodes.Some? ==> Some(r[3]) == OverwriteSuccessCodes(customCodes)
  {
    var configuration := ConfigForOS(osName, executable, arguments, gruntBuildDirectory);
    match OverwriteSuccessCodes(customCodes)
    case None => configuration
    case Some(block) => Concat(configuration, [block])
  }

  /** The argument strings of a list of argument elements: each element's
      text, in order (a nested element, which no argument is, gives ""). */
  function ArgumentTexts(arguments: seq<Element>): (r: seq<string>)
    ensures |r| == |arguments|
    ensures forall i :: 0 <= i < |arguments| && arguments[i].Text? ==> r[i] == arguments[i].text
    ensures forall i :: 0 <= i < |arguments| && arguments[i].Node? ==> r[i] == ""
  {
    seq(|arguments|, i requires 0 <= i < |arguments| =>
      match arguments[i]
      case Text(_, t) => t
      case Node(_, _) => "")
  }

  /** The `ProcessBuilder` command line: `shell /C tool args...` on Windows,
      `tool args...` elsewhere. */
  function ShellCommand(osName: string, shell: string, executable: string, args: seq<string>): (r: seq<string>)
    ensures IsWindows(osName) ==> |r| == |args| + 3 && r[..3] == [shell, "/C", executable] && r[3..] == args
    ensures !IsWindows(osName) ==> |r| == |args| + 1 && r[0] == executable && r[1..] == args
  {
    if IsWindows(osName) then [shell, "/C", executable] + args else [executable] + args
  }

  /** `getExecutionResult(arg)` and `getExecutionResult(arg, arg2)`: on
      Windows "cmd /C" runs the tool, elsewhere the tool runs directly. */
  function ExecutionResultCommand(osName: string, executable: string, args: seq<string>): (r: seq<string>)
    requires 1 <= |args| <= 2
    ensures IsWindows(osName) ==> r == ["cmd", "/C", executable] + args
    ensures !IsWindows(osName) ==> r == [executable] + args
  {
    ShellCommand(osName, "cmd", executable, args)
  }

  /** `executeCommand(arg, arg2, ...)`: on Windows "cmd.exe /C" runs the
      tool, elsewhere the tool runs directly, with the two arguments. */
  function ExecuteCommandLine(osName: string, executable: string, arg: string, arg2: string): (r: seq<string>)
    ensures IsWindows(osName) ==> r == ["cmd.exe", "/C", executable, arg, arg2]
    ensures !IsWindows(osName) ==> r == [executable, arg, arg2]
  {
    ShellCommand(osName, "cmd.exe", executable, [arg, arg2])
  }

  /** The direct command line and the exec-maven-plugin configuration agree:
      the program is the configured executable and the arguments follow it
      unchanged, in order, on every OS. */
  lemma ShellCommandMatchesConfiguration(osName: string, executable: string, args: seq<string>,
                                         gruntBuildDirectory: string)
    ensures var config := ConfigForOS(osName, executable, seq(|args|, i requires 0 <= i < |args| => Argument(args[i])), gruntBuildDirectory);
      ShellCommand(osName, "cmd", executable, args) == [config[0].text] + ArgumentTexts(config[1].children)
  {
    var elems := seq(|args|, i requires 0 <= i < |args| => Argument(args[i]));
    var config := ConfigForOS(osName, executable, elems, gruntBuildDirectory);
    assert ArgumentTexts(elems) == args;
    var os := if IsWindows(osName) then ConfigForWindows(executable, elems) else ConfigForProperOS(executable, elems);
    assert config[0] == os[0] && config[1] == os[1];
  }

  /** `executeCommand` points the process at the grunt build directory only
      when that directory exists. */
  function ProcessDirectory(gruntBuildDirectoryExists: bool, gruntBuildDirectory: string): (r: Option<string>)
    ensures r.Some? <==> gruntBuildDirectoryExists
    ensures r.Some? ==> r.value == gruntBuildDirectory
  {
    if gruntBuildDirectoryExists then Some(gruntBuildDirectory) else None
  }

  /** `ExecutionException(error, result, exitValue)`: the message is the
      captured stderr, `getResult` the captured stdout. */
  datatype ExecutionException = ExecutionException(error: Option<string>, result: Option<string>, exitValue: int) {
    function Message(): Option<string> { error }
    function GetResult(): Option<string> { result }
    function GetExitValue(): int { exitValue }
  }

  /** What happened to a started command: it could not be spawned (an
      `IOException`), or it ran and ended with an exit value after its output
      was captured. */
  datatype ProcessOutcome =
    | SpawnFailed
    | Exited(stdout: string, stderr: string, exitValue: int)

  datatype CommandError =
    | SpawnFailure
    | NonZeroExit(exception: ExecutionException)

  /** `executeCommand(processBuilder, readResponse, ...)`: exit value 0 returns
      the captured stdout (null when output is not read); anything else throws
      an `ExecutionException` carrying stderr, stdout and the exit value. */
  function ExecuteCommand(outcome: ProcessOutcome, readResponse: bool): (r: Result<Option<string>, CommandError>)
    ensures outcome.SpawnFailed? ==> r == Failure(SpawnFailure)
    ensures outcome.Exited? ==>
      (r.Success? <==> outcome.exitValue == 0)
    ensures outcome.Exited? && r.Success? ==>
      r.value == (if readResponse then Some(outcome.stdout) else None)
    ensures outcome.Exited? && r.Failure? ==>
      r.error.NonZeroExit?
      && r.error.exception.GetExitValue() == outcome.exitValue
      && r.error.exception.Message() == (if readResponse then Some(outcome.stderr) else None)
      && r.error.exception.GetResult() == (if readResponse then Some(outcome.stdout) else None)
  {
    match outcome
    case SpawnFailed => Failure(SpawnFailure)
    case Exited(stdout, stderr, exitValue) =>
      var result := if readResponse then Some(stdout) else None;
      var error := if readResponse then Some(stderr) else None;
      if exitValue == 0 then Success(result)
      else Failure(NonZeroExit(ExecutionException(error, result, exitValue)))
  }

  /** `getVersion()`: the stdout of `tool --version`, or null when the command
      could not be run or did not exit with 0. */
  function GetVersion(outcome: ProcessOutcome): (r: Option<string>)
    ensures r.Some? <==> outcome.Exited? && outcome.exitValue == 0
    ensures r.Some? ==> r.value == outcome.stdout
  {
    match ExecuteCommand(outcome, true)
    case Success(result) => result
    case Failure(_) => None
  }
}
