/** `ExecBowerMojo`: runs `bower install`, without colours unless asked for. */
module ExecBower {
  import opened Wrappers
  import opened Elements
  import ExecutableMojo

  const BowerInstallCommand: string := "install"

  datatype BowerMojo = BowerMojo(bowerExecutable: string, showColors: bool)

  /** `getExecutable`: the configured bower executable, unchanged. */
  function GetExecutable(m: BowerMojo): string {
    m.bowerExecutable
  }

  /** `getArguments`. */
  function GetArguments(m: BowerMojo): (r: seq<Element>)
    ensures 1 <= |r| <= 2
    ensures r[0] == Argument("install")
    ensures Argument("--color=false") in r <==> !m.showColors
    ensures |r| == 2 <==> !m.showColors
  {
    [Argument(BowerInstallCommand)] + (if !m.showColors then [Argument("--color=false")] else [])
  }

  /** bower does not override `customSuccessCodes`, so the inherited null
      applies. */
  function CustomSuccessCodes(m: BowerMojo): Option<seq<string>> {
    None
  }

  /** On Windows exec-maven-plugin runs `cmd /C bower install ...` and the
      configuration carries no success-code block. */
  lemma BowerConfiguration(m: BowerMojo, osName: string, gruntBuildDirectory: string)
    requires ExecutableMojo.IsWindows(osName)
    ensures var config := ExecutableMojo.ExecuteConfiguration(osName, GetExecutable(m), GetArguments(m),
                                                              gruntBuildDirectory, CustomSuccessCodes(m));
      && |config| == 3
      && config[0] == Text("executable", "cmd")
      && config[1].children[..3] == [Argument("/C"), Argument(m.bowerExecutable), Argument("install")]
  {
  }
}
