/** `BaseMavenGruntMojo`: the configuration every goal shares, the
    `disabled` switch, and the paths of the js source directory. */
module BaseMojo {
  import opened Wrappers
  import opened Strings

  const DefaultSourceDirectory: string := "src/main/webapp"
  const DefaultJsSourceDirectory: string := "static"
  const DefaultNpmOfflineModulesFile: string := "node_modules.tar"

  /** The directory settings of a goal. `basedir` is the project's base
      directory, already made canonical. */
  datatype Directories = Directories(
    basedir: string,
    sourceDirectory: string,
    jsSourceDirectory: string,
    gruntBuildDirectory: string)

  /** `execute()`: the goal's own work runs unless the goal is disabled, in
      which case nothing changes. */
  function Execute<S, E>(disabled: bool, before: S, executeInternal: S -> Result<S, E>): (r: Result<S, E>)
    ensures disabled ==> r == Success(before)
    ensures !disabled ==> r == executeInternal(before)
  {
    if disabled then Success(before) else executeInternal(before)
  }

  /** `n` consecutive executions of the same goal, stopping at the first
      failure. */
  function Repeat<S, E>(n: nat, disabled: bool, before: S, executeInternal: S -> Result<S, E>): Result<S, E> {
    if n == 0 then Success(before)
    else
      match Execute(disabled, before, executeInternal)
      case Failure(e) => Failure(e)
      case Success(after) => Repeat(n - 1, disabled, after, executeInternal)
  }

  /** A state the goal's work leaves as it is stays so however often the
      goal runs, enabled or not. */
  lemma {:induction false} RepeatAtFixpoint<S, E>(n: nat, disabled: bool, s: S, executeInternal: S -> Result<S, E>)
    requires executeInternal(s) == Success(s)
    ensures Repeat(n, disabled, s, executeInternal) == Success(s)
  {
    if n > 0 {
      RepeatAtFixpoint(n - 1, disabled, s, executeInternal);
    }
  }

  /** `relativeJsSourceDirectory()`: the source directory, a separator, then
      the js source directory. */
  function RelativeJsSourceDirectory(d: Directories, separator: string): (r: string)
    ensures StartsWith(r, d.sourceDirectory) && EndsWith(r, d.jsSourceDirectory)
    ensures |r| == |d.sourceDirectory| + |separator| + |d.jsSourceDirectory|
    ensures r[|d.sourceDirectory|..|d.sourceDirectory| + |separator|] == separator
  {
    var r := d.sourceDirectory + separator + d.jsSourceDirectory;
    assert r[..|d.sourceDirectory|] == d.sourceDirectory;
    assert r[|r| - |d.jsSourceDirectory|..] == d.jsSourceDirectory;
    assert r[|d.sourceDirectory|..|d.sourceDirectory| + |separator|] == separator;
    r
  }

  /** `fullJsSourceDirectory()`: the relative js source directory resolved
      against the base directory. */
  function FullJsSourceDirectory(d: Directories, separator: string): (r: string)
    ensures r == d.basedir + separator + RelativeJsSourceDirectory(d, separator)
    ensures StartsWith(r, d.basedir) && EndsWith(r, d.jsSourceDirectory)
  {
    var r := d.basedir + separator + d.sourceDirectory + separator + d.jsSourceDirectory;
    assert r[..|d.basedir|] == d.basedir;
    assert r[|r| - |d.jsSourceDirectory|..] == d.jsSourceDirectory;
    r
  }

  /** With the default settings and '/' as separator the relative js source
      directory is "src/main/webapp/static". */
  lemma DefaultRelativeJsSourceDirectory(basedir: string, gruntBuildDirectory: string)
    ensures RelativeJsSourceDirectory(Directories(basedir, DefaultSourceDirectory, DefaultJsSourceDirectory, gruntBuildDirectory), "/")
         == "src/main/webapp/static"
  {
  }

  /** `pluginExecutionEvnironment()`: the plugin manager looked up in the
      session, or the injected Maven 2 `pluginManager` when the lookup throws
      `ComponentLookupException` (modelled as None). */
  function PluginManagerFor<M>(lookup: Option<M>, pluginManager: M): (m: M)
    ensures lookup.Some? ==> m == lookup.value
    ensures lookup.None? ==> m == pluginManager
  {
    lookup.GetOr(pluginManager)
  }
}
