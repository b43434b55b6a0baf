/** `ExecNpmMojo`: runs `npm install`, without colours unless asked for. */
module ExecNpm {
  import opened Wrappers
  import opened Elements
  import ExecutableMojo

  const NpmInstallCommand: string := "install"

  datatype NpmMojo = NpmMojo(npmExecutable: string, showColors: bool)

  /** `getExecutable`: the configured npm executable, unchanged. */
  function GetExecutable(m: NpmMojo): string {
    m.npmExecutable
  }

  /** `getArguments`. */
  function GetArguments(m: NpmMojo): (r: seq<Element>)
    ensures 1 <= |r| <= 2
    ensures r[0] == Argument("install")
    ensures Argument("--color=false") in r <==> !m.showColors
    ensures |r| == 2 <==> !m.showColors
  {
    [Argument(NpmInstallCommand)] + (if !m.showColors then [Argument("--color=false")] else [])
  }

  /** npm keeps the inherited default: exit value 0 only. */
  function CustomSuccessCodes(m: NpmMojo): Option<seq<string>> {
    None
  }

  /** On a POSIX host exec-maven-plugin runs `npm install [--color=false]`
      in the grunt build directory, with no success-code block. */
  lemma NpmConfiguration(m: NpmMojo, osName: string, gruntBuildDirectory: string)
    requires !ExecutableMojo.IsWindows(osName)
    ensures var config := ExecutableMojo.ExecuteConfiguration(osName, GetExecutable(m), GetArguments(m),
                                                              gruntBuildDirectory, CustomSuccessCodes(m));
      && |config| == 3
      && config[0] == Text("executable", m.npmExecutable)
      && config[1] == Node("arguments", GetArguments(m))
      && config[1].children[0] == Argument("install")
      && config[2] == Text("workingDirectory", gruntBuildDirectory)
  {
  }
}
