# grunt-maven-plugin, modelled in Dafny

grunt-maven-plugin is a Maven plugin that runs a grunt/npm/bower front-end
build as part of a Maven build. This project models the plugin's core logic:

- **Command lines.** The exec goals (`grunt`, `npm`, `bower`) build the
  configuration they hand to exec-maven-plugin. This covers the `cmd /C`
  wrap on Windows, normalising whitespaced options, custom success codes,
  the `ProcessBuilder` command line and how its exit value is judged.
  It also covers `grunt --version` parsing.
- **Template filtering.** A `Resource` copies a classpath template after its
  `${placeholder}` filters replace every placeholder.
- **Manifest sync.** `ResourceFactory` and the `update-package-json` goal
  create `package.json`/`bower.json` and synchronise them with the Maven
  project's version, url, description, developers, contributors, SCM, issue
  tracker and license.
- **Paths and component names.** These are the directory strings every goal
  composes, the `create-resources` goal's resource elements and inner
  properties file, and the `bower-maven` goal. The `bower-maven` goal names
  webjar components, extracts zips and registers them in `bower.json` while
  walking the dependency graph.
- **The disabled gate.** `BaseMavenGruntMojo.execute()` skips
  `executeInternal` when `disabled` is set. Only the `bower-maven` goal
  reaches this gate: the exec goals, `create-resources` and
  `update-package-json` override `execute()` and ignore `disabled`.
- **Workflow globs and tasks.** `maven-workflow.js` builds the grunt copy
  globs, the watched files and the task queue.

One module stands for one source class:

| module | models |
|---|---|
| `BaseMojo` | `BaseMavenGruntMojo` |
| `ExecutableMojo` | `AbstractExecutableMojo` and `ExecutionException` |
| `Executables` | `Executable` |
| `Normalization` | the shared whitespaced-option regex |
| `ExecGrunt` | `ExecGruntMojo` |
| `ExecNpm` | `ExecNpmMojo` |
| `ExecBower` | `ExecBowerMojo` |
| `Filters` | `Filter` |
| `Resources` | `Resource` |
| `ResourceFactory` | `ResourceFactory` |
| `UpdatePackageJsonMojo` | `UpdatePackageJsonMojo` |
| `CreateResources` | `CreateResourcesMojo` |
| `BowerRepository` | `BowerRepositoryMojo` |
| `MavenWorkflow` | `maven-workflow.js` |

Shared helpers live in `Wrappers` (Java `null` as `Option`, thrown exceptions
as `Result`), `Strings` (the `java.lang.String` methods used), `Elements`
(MojoExecutor's configuration tree) and `JsonModel` (Jackson's/Gson's JSON
tree as a map from keys to values).

The file system is a map from path to contents. Several things are
parameters:

- JSON parsing and printing.
- The classpath template texts.
- The OS name.
- The outcome of a started process.
- The iteration order of a `HashSet`.
- The current time.
- Whether a write fails.

Each goal is a pure function from the files before to the files after (or
the exception it throws).

## Model

Source paths are relative to the repository root; `src/main/java/pl/allegro/tdr/gruntmaven/` is written out in full.

| member | source | states |
|---|---|---|
| BaseMojo.Execute | src/main/java/pl/allegro/tdr/gruntmaven/BaseMavenGruntMojo.java:90-98 | a disabled goal returns the state it was given; an enabled one returns exactly what `executeInternal` returns |
| BaseMojo.RepeatAtFixpoint | src/main/java/pl/allegro/tdr/gruntmaven/BaseMavenGruntMojo.java:90-98 | a state the goal's work leaves unchanged stays unchanged however often the goal runs, enabled or disabled |
| BaseMojo.RelativeJsSourceDirectory | src/main/java/pl/allegro/tdr/gruntmaven/BaseMavenGruntMojo.java:118-120 | the relative directory starts with the source directory, ends with the js source directory, and has exactly one separator between them |
| BaseMojo.FullJsSourceDirectory | src/main/java/pl/allegro/tdr/gruntmaven/BaseMavenGruntMojo.java:114-116 | the full js source directory is the base directory, a separator and the relative js source directory; it starts with the base directory and ends with the js source directory |
| BaseMojo.DefaultRelativeJsSourceDirectory | src/main/java/pl/allegro/tdr/gruntmaven/BaseMavenGruntMojo.java:44-64 | with the default `src/main/webapp` and `static` settings the relative directory is `src/main/webapp/static` |
| BaseMojo.PluginManagerFor | src/main/java/pl/allegro/tdr/gruntmaven/BaseMavenGruntMojo.java:122-131 | the plugin manager found by lookup is used when there is one, otherwise the injected one |
| Executables.NewWithCodes | src/main/java/pl/allegro/tdr/gruntmaven/executable/Executable.java:49-52 | a new executable has the given name and no arguments, and overrides the success codes exactly when some were given |
| Executables.New | src/main/java/pl/allegro/tdr/gruntmaven/executable/Executable.java:54-56 | the one-argument constructor gives no arguments and no success-code override |
| Executables.CopyOf | src/main/java/pl/allegro/tdr/gruntmaven/executable/Executable.java:58-62 | the copy has the same name, success codes and arguments as the original |
| Executables.AddArgument | src/main/java/pl/allegro/tdr/gruntmaven/executable/Executable.java:64-66 | the existing arguments are kept in place and exactly one argument element holding the value is appended |
| Executables.AddNormalizedArgument | src/main/java/pl/allegro/tdr/gruntmaven/executable/Executable.java:74-84 | the appended argument is the normalised value, and it no longer matches the whitespaced-option pattern |
| Executables.AddArgumentsInOrder | src/main/java/pl/allegro/tdr/gruntmaven/executable/Executable.java:64-66 | arguments added one by one follow the earlier ones, each in its position, name and codes unchanged |
| Normalization.OptionNameEnd | src/main/java/pl/allegro/tdr/gruntmaven/AbstractExecutableMojo.java:46 | the `[\w-]*` part of the pattern: the longest run of option characters from the given index |
| Normalization.SpaceRunEnd | src/main/java/pl/allegro/tdr/gruntmaven/AbstractExecutableMojo.java:297-303 | the `\s+` run that `replaceFirst` rewrites: the longest run of Java whitespace from the given index |
| Normalization.FirstSpace | src/main/java/pl/allegro/tdr/gruntmaven/AbstractExecutableMojo.java:297-303 | the first whitespace at or after an index, so `replaceFirst` starts its match there |
| Normalization.WhitespacedOptionIsRegex | src/main/java/pl/allegro/tdr/gruntmaven/AbstractExecutableMojo.java:46 | the executable test holds exactly when some prefix decomposes as the regex `^-{1,2}?[\w-]*\s+` requires, in both directions |
| Normalization.Normalize | src/main/java/pl/allegro/tdr/gruntmaven/AbstractExecutableMojo.java:297-303 | an argument that does not match is returned unchanged; one that matches has its first whitespace run replaced by "=" and nothing else changed |
| Normalization.OptionNameEndAt | src/main/java/pl/allegro/tdr/gruntmaven/AbstractExecutableMojo.java:46 | the option-name run ends exactly at the first character outside `[\w-]` |
| Normalization.NormalizedIsNotWhitespaced | src/main/java/pl/allegro/tdr/gruntmaven/AbstractExecutableMojo.java:297-303 | a normalised argument never matches the whitespaced-option pattern again |
| Normalization.RewrittenIsNotWhitespaced | src/main/java/pl/allegro/tdr/gruntmaven/AbstractExecutableMojo.java:297-303 | an option name followed by "=" in place of the whitespace does not match |
| Normalization.NormalizeIdempotent | src/main/java/pl/allegro/tdr/gruntmaven/executable/Executable.java:78-84 | normalising a normalised argument, with any replacement, changes nothing |
| ExecutableMojo.IsWindows | src/main/java/pl/allegro/tdr/gruntmaven/AbstractExecutableMojo.java:199-201 | the host is Windows exactly when the upper-cased OS name contains "WINDOWS" somewhere |
| ExecutableMojo.ToUpperIdempotent | src/main/java/pl/allegro/tdr/gruntmaven/AbstractExecutableMojo.java:199-201 | upper-casing twice is upper-casing once |
| ExecutableMojo.IsWindowsIgnoresCase | src/main/java/pl/allegro/tdr/gruntmaven/AbstractExecutableMojo.java:199-201 | the Windows test gives the same answer for an OS name and its upper-cased form |
| ExecutableMojo.IsWindowsExamples | src/main/java/pl/allegro/tdr/gruntmaven/AbstractExecutableMojo.java:51 | "Windows 10" and "windows" are Windows-family hosts and "Linux" is not |
| ExecutableMojo.Concat | src/main/java/pl/allegro/tdr/gruntmaven/AbstractExecutableMojo.java:247-251 | the result is the first array followed by the second, lengths adding up |
| ExecutableMojo.ConfigForOS | src/main/java/pl/allegro/tdr/gruntmaven/AbstractExecutableMojo.java:184-237 | on Windows the program is `cmd` with `/C`, the tool and its arguments; elsewhere the tool with its arguments; the working directory is always the grunt build directory |
| ExecutableMojo.ConfigForProperOS | src/main/java/pl/allegro/tdr/gruntmaven/AbstractExecutableMojo.java:209-216 | two elements, the executable and its arguments, naming the command line of the tool followed by its arguments |
| ExecutableMojo.ConfigForWindows | src/main/java/pl/allegro/tdr/gruntmaven/AbstractExecutableMojo.java:224-237 | two elements, `cmd` and its arguments, naming the command line `cmd /C`, the tool, then its arguments |
| ExecutableMojo.OverwriteSuccessCodes | src/main/java/pl/allegro/tdr/gruntmaven/AbstractExecutableMojo.java:269-280 | a success-codes block is produced exactly when custom codes exist, listing them in order |
| ExecutableMojo.ExecuteConfiguration | src/main/java/pl/allegro/tdr/gruntmaven/AbstractExecutableMojo.java:90-105 | the exec-maven-plugin configuration is the OS-specific part, plus the success-codes block only when custom codes are set |
| ExecutableMojo.ArgumentTexts | src/main/java/pl/allegro/tdr/gruntmaven/executable/Executable.java:64-66 | position for position, the text each argument element carries; a nested element carries none |
| ExecutableMojo.ShellCommand | src/main/java/pl/allegro/tdr/gruntmaven/AbstractExecutableMojo.java:127-143 | on Windows the command line is shell, `/C`, tool, then the arguments; elsewhere the tool, then the arguments |
| ExecutableMojo.ShellCommandMatchesConfiguration | src/main/java/pl/allegro/tdr/gruntmaven/AbstractExecutableMojo.java:127-143 | the direct `ProcessBuilder` command line and the exec-maven-plugin configuration name the same program and arguments |
| ExecutableMojo.ExecutionResultCommand | src/main/java/pl/allegro/tdr/gruntmaven/AbstractExecutableMojo.java:127-137 | on Windows the process runs `cmd /C`, the tool and the one or two arguments; elsewhere the tool and those arguments |
| ExecutableMojo.ExecuteCommandLine | src/main/java/pl/allegro/tdr/gruntmaven/AbstractExecutableMojo.java:139-143 | on Windows the process runs `cmd.exe /C`, the tool and both arguments; elsewhere the tool and both arguments |
| ExecutableMojo.ProcessDirectory | src/main/java/pl/allegro/tdr/gruntmaven/AbstractExecutableMojo.java:149-152 | the process runs in the grunt build directory exactly when that directory exists |
| ExecutableMojo.ExecuteCommand | src/main/java/pl/allegro/tdr/gruntmaven/AbstractExecutableMojo.java:145-176 | a spawn failure is an I/O failure; exit value 0 succeeds, returning stdout only when output is read; any other exit value throws `ExecutionException` carrying the exit value and, when output is read, stderr and stdout |
| ExecutableMojo.GetVersion | src/main/java/pl/allegro/tdr/gruntmaven/AbstractExecutableMojo.java:110-117 | the version response is the command's stdout exactly when it exited with 0, and null otherwise |
| ExecGrunt.AppendOptions | src/main/java/pl/allegro/tdr/gruntmaven/ExecGruntMojo.java:129-133 | one argument per grunt option, normalised with "=", in the options' order |
| ExecGrunt.FixedArguments | src/main/java/pl/allegro/tdr/gruntmaven/ExecGruntMojo.java:95-113 | the grunt script comes first when run through node, then the target if any, then `--no-color` when colours are off |
| ExecGrunt.GetArguments | src/main/java/pl/allegro/tdr/gruntmaven/ExecGruntMojo.java:95-113 | the fixed arguments in their positions, followed by every option normalised in order; a null option list gives none |
| ExecGrunt.OptionsSurviveExec | src/main/java/pl/allegro/tdr/gruntmaven/ExecGruntMojo.java:129-133 | no option argument handed to exec-maven-plugin still matches the whitespaced-option pattern |
| ExecGrunt.CustomSuccessCodes | src/main/java/pl/allegro/tdr/gruntmaven/ExecGruntMojo.java:40-42 | ignoring all errors accepts 0..6, ignoring task errors accepts 0, 3 and 6, and otherwise the default policy holds |
| ExecGrunt.SuccessCodesKeepZero | src/main/java/pl/allegro/tdr/gruntmaven/ExecGruntMojo.java:135-143 | every override still accepts exit value 0, and the task-error codes are a subset of the ignore-all codes |
| ExecGrunt.GruntConfiguration | src/main/java/pl/allegro/tdr/gruntmaven/ExecGruntMojo.java:87-93 | exec-maven-plugin runs node or grunt with exactly grunt's arguments (after `/C` and the program on Windows), with a success-codes block exactly when errors are ignored |
| ExecGrunt.TripleAt | src/main/java/pl/allegro/tdr/gruntmaven/ExecGruntMojo.java:120 | a captured version is three digit runs separated by dots, read from the given index |
| ExecGrunt.LastVersionBelow | src/main/java/pl/allegro/tdr/gruntmaven/ExecGruntMojo.java:120 | the greedy `.*` picks the last position at which "grunt " and a version occur; none is found exactly when no position matches |
| ExecGrunt.ParseVersion | src/main/java/pl/allegro/tdr/gruntmaven/ExecGruntMojo.java:118-127 | the pattern matches exactly when some position holds "grunt", an optional "v" and a version; the captured group is the last such version |
| ExecGrunt.LastVersionIsLastMatch | src/main/java/pl/allegro/tdr/gruntmaven/ExecGruntMojo.java:120 | a match with no later match is the one the pattern captures |
| ExecGrunt.LocalVersionExample | src/main/java/pl/allegro/tdr/gruntmaven/ExecGruntMojo.java:120 | in the response "grunt-cli v0.1.13\ngrunt v0.4.5" the local grunt line holds version 0.4.5 |
| ExecGrunt.NothingAfterLocalVersion | src/main/java/pl/allegro/tdr/gruntmaven/ExecGruntMojo.java:120 | in that response no match follows the local version |
| ExecGrunt.ParseVersionExample | src/main/java/pl/allegro/tdr/gruntmaven/ExecGruntMojo.java:118-127 | `grunt --version` output with the CLI version first yields the local version 0.4.5, not the CLI's |
| ExecGrunt.GetVersionAsWrittenThrows | src/main/java/pl/allegro/tdr/gruntmaven/ExecGruntMojo.java:118-122 | for a grunt that cannot be started, and for one that exits with 127, the method as written throws a NullPointerException instead of returning null |
| ExecGrunt.GetVersionAsWritten | src/main/java/pl/allegro/tdr/gruntmaven/ExecGruntMojo.java:118-127 | the method as written throws exactly when the command did not exit with 0; otherwise it returns what the pattern captures from stdout |
| ExecGrunt.GetVersion | src/main/java/pl/allegro/tdr/gruntmaven/ExecGruntMojo.java:114-127 | a version is returned only for a zero exit and is what the pattern captures from stdout; every version returned has the three-number shape |
| ExecGrunt.GetVersionAgrees | src/main/java/pl/allegro/tdr/gruntmaven/ExecGruntMojo.java:118-127 | where the method as written returns, the corrected one returns the same; where it throws, the corrected one returns null |
| ExecNpm.GetArguments | src/main/java/pl/allegro/tdr/gruntmaven/ExecNpmMojo.java:47-58 | `install` comes first, and `--color=false` follows exactly when colours are off |
| ExecNpm.NpmConfiguration | src/main/java/pl/allegro/tdr/gruntmaven/ExecNpmMojo.java:34-58 | on a POSIX host exec-maven-plugin runs `npm install [--color=false]`, with exactly the goal's arguments, in the grunt build directory, without a success-codes block |
| ExecBower.GetArguments | src/main/java/pl/allegro/tdr/gruntmaven/ExecBowerMojo.java:46-57 | `install` comes first, and `--color=false` follows exactly when colours are off |
| ExecBower.BowerConfiguration | src/main/java/pl/allegro/tdr/gruntmaven/ExecBowerMojo.java:33-57 | on Windows exec-maven-plugin runs `cmd /C bower install ...` without a success-codes block |
| Filters.Placeholder | src/main/java/pl/allegro/tdr/gruntmaven/resources/Filter.java:24 | the placeholder is `${`, the name, then `}` |
| Filters.MakeFilter | src/main/java/pl/allegro/tdr/gruntmaven/resources/Filter.java:30-33 | the stored value has the same length as the given one, holds no backslash, and keeps every other character |
| Filters.MakeFilterKeepsPlainValue | src/main/java/pl/allegro/tdr/gruntmaven/resources/Filter.java:30-33 | a value without backslashes is stored as given |
| Filters.ApplyFilter | src/main/java/pl/allegro/tdr/gruntmaven/resources/Filter.java:35-37 | text that does not contain the placeholder is returned unchanged |
| Filters.FilterWithoutDollar | src/test/java/pl/allegro/tdr/gruntmaven/resources/FilterTest.java:28-66 | text without `$` is unchanged, even when it contains the bare placeholder name |
| Filters.FilterFirstPlaceholder | src/main/java/pl/allegro/tdr/gruntmaven/resources/Filter.java:35-37 | the text before the first placeholder is kept, the placeholder becomes the value, and filtering resumes after it |
| Filters.FilterTrailingPlaceholder | src/test/java/pl/allegro/tdr/gruntmaven/resources/FilterTest.java:28-66 | a placeholder after plain text is replaced by the value and the text before it is kept |
| Filters.FilterSlashesExample | src/test/java/pl/allegro/tdr/gruntmaven/resources/ResourceTest.java:74-83 | the value `c:\windows\is\wierd` is written as `c:/windows/is/wierd` |
| Resources.From | src/main/java/pl/allegro/tdr/gruntmaven/resources/Resource.java:43-45 | a new resource names the template and has no filters |
| Resources.WithFilter | src/main/java/pl/allegro/tdr/gruntmaven/resources/Resource.java:52-55 | the earlier filters are kept and one filter built from the placeholder and value is added |
| Resources.ApplyAllAppend | src/main/java/pl/allegro/tdr/gruntmaven/resources/Resource.java:94-100 | applying a list of filters is applying its first part and then the rest to that output |
| Resources.ApplyAllSingle | src/main/java/pl/allegro/tdr/gruntmaven/resources/Resource.java:94-100 | a one-filter list applies that filter once |
| Resources.SingleIterationOrder | src/main/java/pl/allegro/tdr/gruntmaven/resources/Resource.java:39 | a set holding one filter has only one iteration order |
| Resources.FilterContents | src/main/java/pl/allegro/tdr/gruntmaven/resources/Resource.java:94-100 | without filters the contents are unchanged, and with one filter they are that filter's output |
| Resources.CopyResource | src/main/java/pl/allegro/tdr/gruntmaven/resources/Resource.java:65-78 | it fails exactly when the template cannot be read or a needed write fails; otherwise an existing target is kept unless overwriting, and a missing or overwritten target gets the filtered template |
| Resources.Copy | src/main/java/pl/allegro/tdr/gruntmaven/resources/Resource.java:57-78 | `copy` fails exactly when the template cannot be read, or the target is missing and the write fails; an existing target is kept and a missing one gets the filtered template |
| Resources.CopyAndOverwrite | src/main/java/pl/allegro/tdr/gruntmaven/resources/Resource.java:61-78 | `copyAndOverwrite` fails exactly when the template cannot be read or the write fails; otherwise the target holds the filtered template |
| Resources.CopyFrame | src/main/java/pl/allegro/tdr/gruntmaven/resources/Resource.java:57-78 | copying touches no path but the target, and the target exists afterwards |
| Resources.CopyIdempotent | src/main/java/pl/allegro/tdr/gruntmaven/resources/Resource.java:57-63 | a second `copy` changes nothing, a `copy` after a `copyAndOverwrite` keeps the overwritten file, and a second `copyAndOverwrite` writes the same contents again |
| ResourceFactory.GenerateTargetFileName | src/main/java/pl/allegro/tdr/gruntmaven/resources/ResourceFactory.java:265-273 | the file name is the directory, a separator only when the directory lacks one, then the resource name |
| ResourceFactory.TargetFileNameSeparatorOnce | src/main/java/pl/allegro/tdr/gruntmaven/resources/ResourceFactory.java:265-273 | a directory given with its separator attached yields the same file name as without it |
| ResourceFactory.ContributorNode | src/main/java/pl/allegro/tdr/gruntmaven/resources/ResourceFactory.java:298-315 | the node holds exactly the non-null name, email and url, and reading it back gives the contributor |
| ResourceFactory.BowerContributor | src/main/java/pl/allegro/tdr/gruntmaven/resources/ResourceFactory.java:281-296 | null when neither name nor email is set; the email alone without a name; the name alone without an email; otherwise exactly the name, " <", the email and ">" |
| ResourceFactory.SplitAuthor | src/main/java/pl/allegro/tdr/gruntmaven/resources/ResourceFactory.java:281-296 | an author string splits into a name and an optional email that reassemble into it |
| ResourceFactory.BowerContributorRoundTrip | src/main/java/pl/allegro/tdr/gruntmaven/resources/ResourceFactory.java:281-296 | a named contributor written to bower.json is read back with the same name and email |
| ResourceFactory.ScmType | src/main/java/pl/allegro/tdr/gruntmaven/resources/ResourceFactory.java:146 | the SCM type is the text from index 4 up to the next ':'; without such a ':' the substring call throws |
| ResourceFactory.ScmTypeOfConnection | src/main/java/pl/allegro/tdr/gruntmaven/resources/ResourceFactory.java:146 | for `scm:` + type + ":" + rest the type is extracted exactly |
| ResourceFactory.RepositoryNode | src/main/java/pl/allegro/tdr/gruntmaven/resources/ResourceFactory.java:137-149 | the repository holds the SCM url when set and the type exactly when a connection is set; a malformed connection fails |
| ResourceFactory.BugsNode | src/main/java/pl/allegro/tdr/gruntmaven/resources/ResourceFactory.java:151-159 | the nested bugs object holds the issue url exactly when it is set, and nothing else |
| ResourceFactory.PackageContributors | src/main/java/pl/allegro/tdr/gruntmaven/resources/ResourceFactory.java:111-135 | the contributors are the developers after the first, then the contributors, in order |
| ResourceFactory.ContributorNodes | src/main/java/pl/allegro/tdr/gruntmaven/resources/ResourceFactory.java:121-133 | one contributor object per contributor, in order |
| ResourceFactory.PackageFields | src/main/java/pl/allegro/tdr/gruntmaven/resources/ResourceFactory.java:99-167 | the fields set are version, homepage, description, author, contributors, repository, bugs and license, each once |
| ResourceFactory.UpdatePackageJson | src/main/java/pl/allegro/tdr/gruntmaven/resources/ResourceFactory.java:91-175 | it fails exactly on a malformed SCM connection; otherwise every field is set or kept according to its null test, and every other key of the file is kept |
| ResourceFactory.UpdatePackageJsonIdempotent | src/main/java/pl/allegro/tdr/gruntmaven/resources/ResourceFactory.java:91-175 | synchronising an already synchronised package.json changes nothing |
| ResourceFactory.SecondaryDevelopersAreContributors | src/test/java/pl/allegro/tdr/gruntmaven/resources/ResourceFactoryTest.java:184-202 | with two developers and a contributor, the first developer is the author and the second developer and the contributor are the contributors, in order |
| ResourceFactory.BowerNames | src/main/java/pl/allegro/tdr/gruntmaven/resources/ResourceFactory.java:221-247 | only contributors with a name or email appear, each as a string; the list is empty exactly when nobody has either |
| ResourceFactory.BowerNamesAppend | src/main/java/pl/allegro/tdr/gruntmaven/resources/ResourceFactory.java:221-247 | the bower names of two lists joined are the names of each list, joined in order |
| ResourceFactory.BowerNamesAllNamed | src/main/java/pl/allegro/tdr/gruntmaven/resources/ResourceFactory.java:221-247 | when everyone has a name or email, nobody is dropped and the i-th entry is the i-th contributor's string |
| ResourceFactory.BowerFields | src/main/java/pl/allegro/tdr/gruntmaven/resources/ResourceFactory.java:201-263 | the fields set are version, homepage, description, authors, contributors and license, each once |
| ResourceFactory.UpdateBowerJson | src/main/java/pl/allegro/tdr/gruntmaven/resources/ResourceFactory.java:201-263 | every bower field is set or kept according to its null test, and every other key of the file is kept |
| ResourceFactory.UpdateBowerJsonIdempotent | src/main/java/pl/allegro/tdr/gruntmaven/resources/ResourceFactory.java:201-263 | synchronising an already synchronised bower.json changes nothing |
| ResourceFactory.PackageJsonTemplate | src/main/java/pl/allegro/tdr/gruntmaven/resources/ResourceFactory.java:74-89 | the package.json template gets the artifact id, version, description, url and grunt version, with a null url or description filtered as "" |
| ResourceFactory.BowerJsonTemplate | src/main/java/pl/allegro/tdr/gruntmaven/resources/ResourceFactory.java:185-199 | the bower.json template gets the same filters without the grunt version |
| ResourceFactory.GruntfileTemplate | src/main/java/pl/allegro/tdr/gruntmaven/resources/ResourceFactory.java:25-29 | the Gruntfile template has no filters |
| ResourceFactory.CreateGruntfile | src/main/java/pl/allegro/tdr/gruntmaven/resources/ResourceFactory.java:25-29 | an existing Gruntfile is kept; a missing one gets the template text; an unreadable template or failed write fails |
| ResourceFactory.UpdateFile | src/main/java/pl/allegro/tdr/gruntmaven/resources/ResourceFactory.java:91-98 | unreadable JSON and a root that is not an object fail; otherwise the updated object is rendered back into the same file |
| ResourceFactory.CreateOrUpdate | src/main/java/pl/allegro/tdr/gruntmaven/resources/ResourceFactory.java:39-66 | an existing file is only updated; a missing one is first copied from the filtered template and then updated, and a failed copy fails; the call succeeds exactly when no write fails and the existing or created file holds an object the update accepts, and the file then holds the printed update of that object |
| ResourceFactory.CreateOrUpdateFrame | src/main/java/pl/allegro/tdr/gruntmaven/resources/ResourceFactory.java:39-66 | only the target file is touched |
| ResourceFactory.CreateOrUpdatePackageJson | src/main/java/pl/allegro/tdr/gruntmaven/resources/ResourceFactory.java:39-48 | an existing package.json is only updated; a missing one with an unreadable template or a failing write fails to be created; a missing one with a readable template is created from the template filtered with the project's values and then updated; a success adds at most package.json and keeps every other file |
| ResourceFactory.CreateOrUpdateBowerJson | src/main/java/pl/allegro/tdr/gruntmaven/resources/ResourceFactory.java:57-66 | an existing bower.json is only updated; a missing one with an unreadable template or a failing write fails to be created; a missing one with a readable template is created from the template filtered with the project's values and then updated; a success adds at most bower.json and keeps every other file |
| ResourceFactory.CreateOrUpdateIdempotent | src/main/java/pl/allegro/tdr/gruntmaven/resources/ResourceFactory.java:39-66 | when Jackson reads back what it writes and the update is idempotent, a second run changes nothing |
| ResourceFactory.ExistingPackageJsonIgnoresTemplate | src/main/java/pl/allegro/tdr/gruntmaven/resources/ResourceFactory.java:39-48 | an existing package.json is never re-created, so the template text plays no part |
| ResourceFactory.CreateOrUpdatePackageJsonIdempotent | src/main/java/pl/allegro/tdr/gruntmaven/resources/ResourceFactory.java:39-48 | `createOrUpdatePackageJson` run twice leaves the files as one run did |
| ResourceFactory.CreateOrUpdateBowerJsonIdempotent | src/main/java/pl/allegro/tdr/gruntmaven/resources/ResourceFactory.java:57-66 | `createOrUpdateBowerJson` run twice leaves the files as one run did |
| UpdatePackageJsonMojo.DefaultTargetAsWritten | src/main/java/pl/allegro/tdr/gruntmaven/UpdatePackageJsonMojo.java:38-45 | with the default directories the goal as written writes to `src/main/webappstatic/package.json` and `src/main/webappstatic/Gruntfile.js` |
| UpdatePackageJsonMojo.TargetDirectoryAsWritten | src/main/java/pl/allegro/tdr/gruntmaven/UpdatePackageJsonMojo.java:38 | as written, the target directory is the source directory directly followed by the js source directory, with nothing between them |
| UpdatePackageJsonMojo.TargetAgreesWithFactory | src/main/java/pl/allegro/tdr/gruntmaven/resources/ResourceFactory.java:33-52 | the corrected target is the file the factory's `createOrUpdate*` writes for the js source directory |
| UpdatePackageJsonMojo.TargetsDiffer | src/main/java/pl/allegro/tdr/gruntmaven/UpdatePackageJsonMojo.java:28-29 | package.json and Gruntfile.js in the same directory never collide |
| UpdatePackageJsonMojo.BugsUrlValue | src/main/java/pl/allegro/tdr/gruntmaven/UpdatePackageJsonMojo.java:133-139 | the "bugs.url" value is present exactly when the issue tracker and its url are set, and is that url |
| UpdatePackageJsonMojo.MojoPackageFields | src/main/java/pl/allegro/tdr/gruntmaven/UpdatePackageJsonMojo.java:81-147 | the goal sets version, homepage, description, author, contributors, repository, "bugs.url" and license, each once |
| UpdatePackageJsonMojo.UpdatePackageJson | src/main/java/pl/allegro/tdr/gruntmaven/UpdatePackageJsonMojo.java:75-155 | it fails exactly on a malformed SCM connection; otherwise every field is set or kept according to its null test and every other key is kept |
| UpdatePackageJsonMojo.BugsUrlIsFlat | src/main/java/pl/allegro/tdr/gruntmaven/UpdatePackageJsonMojo.java:133-139 | the goal writes a flat "bugs.url" key and never a nested "bugs" object |
| UpdatePackageJsonMojo.AgreesWithFactoryExceptBugs | src/main/java/pl/allegro/tdr/gruntmaven/UpdatePackageJsonMojo.java:75-155 | the goal and the factory write the same value under every key other than the bugs keys |
| UpdatePackageJsonMojo.UpdatePackageJsonIdempotent | src/main/java/pl/allegro/tdr/gruntmaven/UpdatePackageJsonMojo.java:75-155 | the goal's synchronisation run twice equals one run |
| UpdatePackageJsonMojo.CreateAndSync | src/main/java/pl/allegro/tdr/gruntmaven/UpdatePackageJsonMojo.java:36-50 | package.json is created when missing and then synchronised, ending up as the printed update of the object the existing or created file holds; Gruntfile.js is copied only when missing, and an existing one is kept without its template being read; the goal succeeds exactly when no write fails, package.json holds an object the update accepts, and a missing Gruntfile.js has a readable template |
| UpdatePackageJsonMojo.ExistingGruntfileIgnoresTemplate | src/main/java/pl/allegro/tdr/gruntmaven/UpdatePackageJsonMojo.java:45-49 | when Gruntfile.js exists, the goal's outcome is the same whatever its template reads as, so a missing template does not fail the goal |
| UpdatePackageJsonMojo.CreateAndSyncIdempotent | src/main/java/pl/allegro/tdr/gruntmaven/UpdatePackageJsonMojo.java:36-50 | when Jackson reads back what it writes, a second run of the goal changes nothing |
| UpdatePackageJsonMojo.ExecuteInIdempotent | src/main/java/pl/allegro/tdr/gruntmaven/UpdatePackageJsonMojo.java:36-50 | the goal with its own update, run twice, leaves the files as one run did |
| UpdatePackageJsonMojo.ExecuteIn | src/main/java/pl/allegro/tdr/gruntmaven/UpdatePackageJsonMojo.java:36-73 | in a given directory, a success adds or changes only package.json and Gruntfile.js, and an existing Gruntfile.js is kept while a missing one gets the template; the goal succeeds exactly when no write fails, package.json (existing, or created from a readable template filtered with the project's values) holds an object, the SCM connection is well formed, and a missing Gruntfile.js has a readable template; package.json then holds the synchronised update of that object |
| UpdatePackageJsonMojo.ExecuteAsWritten | src/main/java/pl/allegro/tdr/gruntmaven/UpdatePackageJsonMojo.java:36-73 | the goal as written, in the directory without a separator, writes as `ExecuteIn` says: only package.json and Gruntfile.js change, and it succeeds exactly under `ExecuteIn`'s conditions, leaving package.json as the synchronised update of the existing or created object |
| UpdatePackageJsonMojo.Execute | src/main/java/pl/allegro/tdr/gruntmaven/UpdatePackageJsonMojo.java:36-73 | the corrected goal, in the relative js source directory, writes as `ExecuteIn` says: only package.json and Gruntfile.js change, and it succeeds exactly under `ExecuteIn`'s conditions, leaving package.json as the synchronised update of the existing or created object |
| CreateResources.JoinQuotedSnoc | src/main/java/pl/allegro/tdr/gruntmaven/CreateResourcesMojo.java:156-161 | one more entry adds ", " and the quoted entry at the end |
| CreateResources.FilteredResourcesAsJsonArray | src/main/java/pl/allegro/tdr/gruntmaven/CreateResourcesMojo.java:151-165 | the builder loop with its trailing-", " deletion produces the bracketed, comma-separated list of quoted entries |
| CreateResources.ParseJoinQuoted | src/main/java/pl/allegro/tdr/gruntmaven/CreateResourcesMojo.java:151-165 | entries without quotes are read back from their joined form |
| CreateResources.JsonArrayRoundTrip | src/main/java/pl/allegro/tdr/gruntmaven/CreateResourcesMojo.java:151-165 | when no entry holds a double quote, a JSON reader gets back exactly the filtered resources |
| CreateResources.EmptyJsonArray | src/main/java/pl/allegro/tdr/gruntmaven/CreateResourcesMojo.java:159-163 | no filtered resources give "[]" |
| CreateResources.QuotesAreNotEscaped | src/main/java/pl/allegro/tdr/gruntmaven/CreateResourcesMojo.java:157 | an entry holding quotes is written as if it were two entries |
| CreateResources.ResourceElementParts | src/main/java/pl/allegro/tdr/gruntmaven/CreateResourcesMojo.java:101-115 | a resource element reports its directory, include patterns and filtering flag |
| CreateResources.CreateFilteredResources | src/main/java/pl/allegro/tdr/gruntmaven/CreateResourcesMojo.java:129-137 | one `include` per filtered resource, in order |
| CreateResources.IncludeTexts | src/main/java/pl/allegro/tdr/gruntmaven/CreateResourcesMojo.java:129-137 | the texts of such include elements are the patterns |
| CreateResources.ResourceDirectory | src/main/java/pl/allegro/tdr/gruntmaven/CreateResourcesMojo.java:102 | the resource directory is the relative js source directory with '/' |
| CreateResources.CreateResourceElements | src/main/java/pl/allegro/tdr/gruntmaven/CreateResourcesMojo.java:98-120 | an unfiltered resource of every file always comes first; a filtered resource of exactly the filtered files follows only when there are some; both use the js source directory |
| CreateResources.Configuration | src/main/java/pl/allegro/tdr/gruntmaven/CreateResourcesMojo.java:87-91 | the copy-resources configuration holds the overwrite flag, the grunt build directory as output, and the resources |
| CreateResources.PathToWorkflowTasksDirectory | src/main/java/pl/allegro/tdr/gruntmaven/CreateResourcesMojo.java:171-177 | the workflow tasks directory is the grunt build directory followed by two separators |
| CreateResources.FilesToWatch | src/main/java/pl/allegro/tdr/gruntmaven/CreateResourcesMojo.java:141 | the files to watch are the watch directory, a separator and `**` |
| CreateResources.PathToWatchDirectoryAsWritten | src/main/java/pl/allegro/tdr/gruntmaven/CreateResourcesMojo.java:167-169 | as written, the watch directory is the base directory, a separator, then the source and js source directories with nothing between them |
| CreateResources.PathToWatchDirectory | src/main/java/pl/allegro/tdr/gruntmaven/CreateResourcesMojo.java:167-169 | the corrected watch directory is the base directory plus the relative js source directory |
| CreateResources.WatchDirectoryAsWrittenMissesSeparator | src/main/java/pl/allegro/tdr/gruntmaven/CreateResourcesMojo.java:167-169 | with the default directories the watch directory as written ends in `src/main/webappstatic`, which is not the js source directory |
| CreateResources.WatchDirectoryIsResourceDirectory | src/main/java/pl/allegro/tdr/gruntmaven/CreateResourcesMojo.java:102 | the corrected watch directory is the directory the resources element copies from |
| CreateResources.InnerPropertiesResource | src/main/java/pl/allegro/tdr/gruntmaven/CreateResourcesMojo.java:139-147 | the inner properties template gets seven filters in order: files and directory to watch, project root, target, source and js source directories, filtered files |
| CreateResources.WatchDirectoryDecidesFirstFilters | src/main/java/pl/allegro/tdr/gruntmaven/CreateResourcesMojo.java:139-149 | the goal as written and the corrected goal fill the same template with the same last five filters; with a non-empty separator their two watch filters differ |
| CreateResources.CreateInnerPropertiesResource | src/main/java/pl/allegro/tdr/gruntmaven/CreateResourcesMojo.java:139-149 | the properties file in the workflow tasks directory is always overwritten with the filtered template |
| CreateResources.ExecuteAsWritten | src/main/java/pl/allegro/tdr/gruntmaven/CreateResourcesMojo.java:79-96 | the goal as written requests copy-resources of maven-resources-plugin at the configured version with the configured overwrite flag, the grunt build directory as output and the resource elements; a failing copy-resources execution stops the goal before the properties file is written; otherwise the properties file is written exactly when the template reads and the write succeeds, and then holds the template filtered with the watch directory as written |
| CreateResources.Execute | src/main/java/pl/allegro/tdr/gruntmaven/CreateResourcesMojo.java:79-96 | the corrected goal: the same request, the same failures and the same properties file as the goal as written, but filtered with the watch directory the resources are copied from |
| BowerRepository.ComponentNameFromPath | src/main/java/pl/allegro/tdr/gruntmaven/BowerRepositoryMojo.java:129-142 | a name exists exactly when the path has at least four characters and a second '/' that is not its last character; the name is the path up to that '/' |
| BowerRepository.SecondSlashUnique | src/main/java/pl/allegro/tdr/gruntmaven/BowerRepositoryMojo.java:129-142 | a path has at most one second '/' |
| BowerRepository.AtMostOneSlash | src/main/java/pl/allegro/tdr/gruntmaven/BowerRepositoryMojo.java:129-142 | a path with fewer than two '/' names no component |
| BowerRepository.SecondSlashIsLast | src/main/java/pl/allegro/tdr/gruntmaven/BowerRepositoryMojo.java:129-142 | a path whose second '/' is its last character names no component |
| BowerRepository.ComponentNameExamples | src/test/java/pl/allegro/tdr/gruntmaven/resources/WebjarComponentNameTest.java:18-22 | "", "component", "component/", "component/1.0.0" and "component/1.0.0/" name no component |
| BowerRepository.NoSecondSlashExample | src/test/java/pl/allegro/tdr/gruntmaven/resources/WebjarComponentNameTest.java:19-21 | the test's paths with at most one '/' name no component |
| BowerRepository.SecondSlashLastExample | src/test/java/pl/allegro/tdr/gruntmaven/resources/WebjarComponentNameTest.java:22 | "component/1.0.0/" names no component |
| BowerRepository.ComponentNameAt | src/test/java/pl/allegro/tdr/gruntmaven/resources/WebjarComponentNameTest.java:23-25 | a path with a second '/' before its end names the part before that '/' |
| BowerRepository.ComponentNameOfEntry | src/test/java/pl/allegro/tdr/gruntmaven/resources/WebjarComponentNameTest.java:23-25 | "component/version/" followed by anything non-empty names "component/version" |
| BowerRepository.NewWebjarComponent | src/main/java/pl/allegro/tdr/gruntmaven/BowerRepositoryMojo.java:57-67 | the full name splits at its first '/' into name and version, and the zip is in the output directory, named after the component |
| BowerRepository.PathBelow | src/main/java/pl/allegro/tdr/gruntmaven/BowerRepositoryMojo.java:160-171 | an entry lies below the jar source directory exactly when it starts with it and is longer; the rest of the entry follows |
| BowerRepository.WebjarEntry | src/main/java/pl/allegro/tdr/gruntmaven/BowerRepositoryMojo.java:160-195 | a routed entry is the jar source directory, a component name with one '/', a '/', then a non-empty inner path |
| BowerRepository.WebjarEntryRoundTrip | src/main/java/pl/allegro/tdr/gruntmaven/BowerRepositoryMojo.java:160-195 | an entry inside a component directory is routed back to that component with its inner path |
| BowerRepository.BowerZipFileName | src/main/java/pl/allegro/tdr/gruntmaven/BowerRepositoryMojo.java:207-214 | the zip is in the output directory, with one separator, named after the jar, the snapshot suffix and ".zip" |
| BowerRepository.SnapshotZipFileName | src/main/java/pl/allegro/tdr/gruntmaven/BowerRepositoryMojo.java:210-214 | a release jar's zip is named after the jar alone, and a snapshot's carries the timestamp between the jar name and ".zip" |
| BowerRepository.BowerJsonPath | src/main/java/pl/allegro/tdr/gruntmaven/BowerRepositoryMojo.java:261-267 | bower.json lies in the grunt build directory with exactly one '/' before its name, none being added when the directory already ends in '/' |
| BowerRepository.RepositoryDirectory | src/main/java/pl/allegro/tdr/gruntmaven/BowerRepositoryMojo.java:298 | the bower-maven folder lies in the grunt build directory with exactly one '/' before it |
| BowerRepository.RepositoryDirectoryOnce | src/main/java/pl/allegro/tdr/gruntmaven/BowerRepositoryMojo.java:261-263 | a grunt build directory that already ends in '/' gives the same repository directory and bower.json path |
| BowerRepository.ExtractBower | src/main/java/pl/allegro/tdr/gruntmaven/BowerRepositoryMojo.java:200-249 | the jar adds the "groupId.artifactId" dependency, bound to the zip path, exactly when it holds an entry below the jar source directory; other keys are kept |
| BowerRepository.PutAll | src/main/java/pl/allegro/tdr/gruntmaven/BowerRepositoryMojo.java:190-195 | the keys after putting are the old keys and the bound ones, no others, and a key no binding names keeps its value |
| BowerRepository.PutAllLastWins | src/main/java/pl/allegro/tdr/gruntmaven/BowerRepositoryMojo.java:190-195 | the last binding of a key decides its value |
| BowerRepository.ComponentBinding | src/main/java/pl/allegro/tdr/gruntmaven/BowerRepositoryMojo.java:190-195 | a component binds the jar-and-component key to its zip path |
| BowerRepository.ComponentBindings | src/main/java/pl/allegro/tdr/gruntmaven/BowerRepositoryMojo.java:190-195 | one binding per component, in order |
| BowerRepository.WebjarDependencyKeyInjective | src/main/java/pl/allegro/tdr/gruntmaven/BowerRepositoryMojo.java:193 | the webjar key is the jar name, '-' and the component name; for component names without '-', two different jar-and-component pairs never share a key |
| BowerRepository.BowerDependencyKeyInjective | src/main/java/pl/allegro/tdr/gruntmaven/BowerRepositoryMojo.java:243 | the bower key is the group id, '.' and the artifact id; for artifact ids without '.', two different artifacts never share a key |
| BowerRepository.ExtractWebjar | src/main/java/pl/allegro/tdr/gruntmaven/BowerRepositoryMojo.java:144-198 | for any put order, the keys are the old ones and the components' keys; untouched keys keep their values; a component whose key no later component repeats is bound to its zip file |
| BowerRepository.PutAllOver | src/main/java/pl/allegro/tdr/gruntmaven/BowerRepositoryMojo.java:190-195 | putting bindings into a merged map is merging with the bindings put into the second map |
| BowerRepository.PutAllTwice | src/main/java/pl/allegro/tdr/gruntmaven/BowerRepositoryMojo.java:190-195 | putting the same bindings twice is putting them once |
| BowerRepository.NewComponents | src/main/java/pl/allegro/tdr/gruntmaven/BowerRepositoryMojo.java:160-171 | the components found are the ones seen and the ones some entry is routed to, each once |
| BowerRepository.RoutedToCons | src/main/java/pl/allegro/tdr/gruntmaven/BowerRepositoryMojo.java:160-171 | the components of a list of entries are the first entry's and those of the rest |
| BowerRepository.ComponentsInOrder | src/main/java/pl/allegro/tdr/gruntmaven/BowerRepositoryMojo.java:160-171 | each component some entry is routed to appears exactly once, and nothing else appears |
| BowerRepository.HandleArtifact | src/main/java/pl/allegro/tdr/gruntmaven/BowerRepositoryMojo.java:351-367 | an artifact with a file contributes its webjar or bower bindings, and one without a file contributes none |
| BowerRepository.PutAllAppend | src/main/java/pl/allegro/tdr/gruntmaven/BowerRepositoryMojo.java:337-370 | putting two lists of bindings is putting the first and then the second |
| BowerRepository.HandleBowerDependency | src/main/java/pl/allegro/tdr/gruntmaven/BowerRepositoryMojo.java:337-370 | the dependency walk puts exactly the bindings of the subtree, in preorder |
| BowerRepository.HandleChildren | src/main/java/pl/allegro/tdr/gruntmaven/BowerRepositoryMojo.java:341-369 | the loop from any child on puts exactly the bindings of those children's subtrees |
| BowerRepository.WalkTwice | src/main/java/pl/allegro/tdr/gruntmaven/BowerRepositoryMojo.java:337-370 | walking the same graph a second time changes nothing |
| BowerRepository.LoadBowerJson | src/main/java/pl/allegro/tdr/gruntmaven/BowerRepositoryMojo.java:266-275 | a missing bower.json reads as an empty map; a document that is JSON null reads as null |
| BowerRepository.Register | src/main/java/pl/allegro/tdr/gruntmaven/BowerRepositoryMojo.java:277-306 | a "dependencies" entry that is neither a map nor null fails the cast; a null dependency map fails exactly when the walk binds something into it; no other failure occurs; nothing is written exactly when the cast succeeds and no graph builder is injected; a written map keeps every other top-level entry and holds a well-typed dependency map |
| BowerRepository.RegisterTwice | src/main/java/pl/allegro/tdr/gruntmaven/BowerRepositoryMojo.java:277-306 | registering again into the map a registration wrote changes nothing |
| BowerRepository.ReprintedFields | src/main/java/pl/allegro/tdr/gruntmaven/BowerRepositoryMojo.java:259 | what Gson reads back from a printed object: exactly the members that are not null, each reprinted |
| BowerRepository.ReprintedPutAll | src/main/java/pl/allegro/tdr/gruntmaven/BowerRepositoryMojo.java:259 | dropping null members and then putting string bindings is putting them and then dropping null members |
| BowerRepository.WalkReprintedTwice | src/main/java/pl/allegro/tdr/gruntmaven/BowerRepositoryMojo.java:337-370 | walking the graph again over what Gson reads back from a walk's result changes nothing |
| BowerRepository.RegisterReprintedTwice | src/main/java/pl/allegro/tdr/gruntmaven/BowerRepositoryMojo.java:277-306 | registering again into what Gson reads back from a registration changes nothing, when the dependency map was not null |
| BowerRepository.ExecuteInternal | src/main/java/pl/allegro/tdr/gruntmaven/BowerRepositoryMojo.java:251-316 | without a project or graph builder the files are unchanged; only bower.json can be added or changed; a bower.json Gson reads as null fails with a null pointer, a "dependencies" entry the cast rejects fails the cast, and a null dependency map the walk binds into fails with a null pointer; no other run fails |
| BowerRepository.ExecuteInternalTwice | src/main/java/pl/allegro/tdr/gruntmaven/BowerRepositoryMojo.java:251-316 | with Gson's printing and the same clock (`now`) for both runs, a second run over the first run's bower.json writes the same file again, unless the first run read a null dependency map |
| BowerRepository.NullDependenciesRewritten | src/main/java/pl/allegro/tdr/gruntmaven/BowerRepositoryMojo.java:277-282 | a bower.json declaring `"dependencies": null` is written without the entry, so a second run adds an empty map and writes a different file |
| BowerRepository.ExecuteInternalRegisters | src/main/java/pl/allegro/tdr/gruntmaven/BowerRepositoryMojo.java:297-315 | after a run that writes bower.json, the file reads back as the old top-level entries without the null ones, reprinted, and a dependency map that is the declared dependencies with every walked binding put over them; a null dependency map survives only when nothing is bound, and is not printed |
| BowerRepository.EnabledGoalSettles | src/main/java/pl/allegro/tdr/gruntmaven/BaseMavenGruntMojo.java:90-98 | with the same clock (`now`) for every run, running the enabled `bower-maven` goal any positive number of times leaves the files as its first run did, when that run succeeded and read no null dependency map |
| MavenWorkflow.UnsplitSegments | src/main/resources/maven-workflow.js:19 | splitting a path at every '/' and putting the segments back together with '/' gives the path back |
| MavenWorkflow.SegmentsAppend | src/main/resources/maven-workflow.js:19 | the segments of `x + "/" + y` are the segments of `x` followed by those of `y` |
| MavenWorkflow.ResolvePlain | src/main/resources/maven-workflow.js:19 | normalisation keeps segments that are neither empty, "." nor "..", in order |
| MavenWorkflow.NormalizePlain | src/main/resources/maven-workflow.js:19 | `path.normalize` leaves a relative or absolute path in normal form unchanged |
| MavenWorkflow.PlainAppend | src/main/resources/maven-workflow.js:19 | a path in normal form, '/' and a relative path in normal form make a path in normal form |
| MavenWorkflow.UnsplitPlain | src/main/resources/maven-workflow.js:19 | arguments in normal form are all non-empty, and joined with '/' they make a path in normal form |
| MavenWorkflow.JoinPlain | src/main/resources/maven-workflow.js:19 | `path.join` of a path in normal form followed by relative paths in normal form is their plain '/'-joined concatenation |
| MavenWorkflow.JoinCollapsesSlash | src/main/resources/maven-workflow.js:19 | `path.join` of `x` and "/y" is "x/y": the doubled '/' collapses |
| MavenWorkflow.JoinResolvesDots | src/main/resources/maven-workflow.js:19 | `path.join` of `x` and "./y/../z" is "x/z": "." vanishes and ".." drops the segment before it |
| MavenWorkflow.JoinNothing | src/main/resources/maven-workflow.js:19 | `path.join` of empty arguments only is "." |
| MavenWorkflow.DefaultDirectoriesArePlain | src/main/java/pl/allegro/tdr/gruntmaven/BaseMavenGruntMojo.java:44-64 | the default `src/main/webapp` and `static` are relative paths in normal form |
| MavenWorkflow.CopySrcToGruntTargetFiles | src/main/resources/maven-workflow.js:11-14 | the globs are "./**", then "!./" + f for each filtered file in order |
| MavenWorkflow.ExcludedFilesAreNegated | src/main/resources/maven-workflow.js:11-14 | every excluded file comes from a "!./" glob, and the file of every "!./" glob is excluded |
| MavenWorkflow.ExcludedNegations | src/main/resources/maven-workflow.js:12-14 | the negated globs exclude exactly the files they were built from, in order |
| MavenWorkflow.ExcludedFilesAreFiltered | src/main/resources/maven-workflow.js:11-14 | the copy globs exclude exactly the filtered files, in order, and nothing else |
| MavenWorkflow.GruntSkipsMavenFilteredFiles | src/main/resources/maven-workflow.js:8-23 | when no filtered resource holds a quote, the source copy task grunt runs reads the filtered files back from the properties file, copies from the js source directory, and excludes exactly the resources Maven filters |
| MavenWorkflow.InnerPropertiesFeedScript | src/main/resources/maven-workflow.js:8-19 | for values without backslashes, the properties file gives the script the base, target, source and js source directories as configured, and a filtered-files array that reads back as the filtered resources |
| MavenWorkflow.WatchedFilesAgreeWithGoal | src/main/resources/maven-workflow.js:43 | for a base directory and source directories in normal form the script watches the files below the goal's corrected watch directory |
| MavenWorkflow.WatchedFilesDisagreeWithGoalAsWritten | src/main/resources/maven-workflow.js:43 | for a base directory in normal form and the default directories, the script's watched files differ from the goal's watch directory as written |
| MavenWorkflow.CopyTask | src/main/resources/maven-workflow.js:16-51 | exactly the three copy tasks have a configuration: the source copy from the js source directory into "./" with globs that exclude exactly the filtered files, the dist copy of the dist patterns into the dist directory, and the copy of everything in the dist directory into the target's war js source directory |
| MavenWorkflow.TaskQueue | src/main/resources/maven-workflow.js:48-58 | "maven" queues the dist and maven-target copies in that order, "maven-watch" the source copy, and no other task is registered |
| MavenWorkflow.QueuedTasksAreConfigured | src/main/resources/maven-workflow.js:45-58 | every queued task has a copy configuration by the time it runs |

## Left out

- Process spawning, stream reading with its timeout and trim, and logging are left out. The process outcome (spawn failure, or exit value with stdout and stderr) is a parameter.
- `getAbsolutePath`, canonical base directories and `path.resolve` are left out. Paths are plain strings.
- The classpath read of a template is a parameter: its text, or None when reading fails. The template texts themselves are not part of this model.
- Mojo parameters, including `mavenProject.getVersion()`, are assumed to be non-null strings. A null `filteredResources` is not modelled; the source dereferences it at lines 110 and 156 and would throw.
- Resources.FilterContents: the filters live in a `HashSet` and run in an unspecified order. The model takes the order as a parameter and states the result only for zero or one filter.
- ResourceFactory.PackageJsonTemplate: the factory's filter list is taken in insertion order, which is one of the orders the `HashSet` allows.
- Filters.MakeFilter: a `$` or backslash in a replacement value, and regex metacharacters in a placeholder name, are not given Java's regex meaning. Replacement is literal.
- Jackson's and Gson's key order and pretty printing are left out. A JSON object is a map, and reading and printing are parameters. The printed text is taken to depend only on the tree printed.
- Jackson is taken to read back exactly the tree it printed. For the `bower-maven` goal's Gson, what is read back is modelled: null members are dropped at any depth, null array elements are kept, and a number is read as a double, whose literal is a parameter.
- BowerRepository.ExecuteInternalTwice: the second run is the same only when the first did not read a null dependency map. NullDependenciesRewritten shows that such a bower.json is rewritten.
- BowerRepository.ExecuteInternalTwice holds for a second run with the same clock only. A later run gives every snapshot artifact outside webjar mode a new timestamped zip name, rebinds its key and rewrites bower.json.
- BowerRepository.EnabledGoalSettles gives every run the same clock, so it does not cover a snapshot artifact outside webjar mode. A real later run rebinds that artifact to a new timestamped zip.
- The list view `arguments()` and the array view `argumentsArray()` of an executable's arguments are one sequence in the model.
- A missing classpath template makes `getResourceAsStream` return null, and the copy then throws `NullPointerException` rather than `ResourceCreationException`. The model folds both into one failure.
- ExecutableMojo.IsWindows: `toUpperCase` is modelled on ASCII letters only.
- The `cmd` wrap of `getExecutionResult` and the `cmd.exe` wrap of `executeCommand(arg, arg2, ...)` are modelled as command lines only.
- BowerRepository.ExtractWebjar: the source puts the components in `HashMap` order. The goal's model puts them in order of first entry, and ExtractWebjar's contract states the result for any put order.
- Zip writing is left out, and so are its `FileNotFoundException` and `IOException`. A component contributes its dependency binding.
- Artifact resolution, the scope filter, `mkdirs`, `createWorkflowTasksDirectory` and the loop over `getDependencyArtifacts` are left out. The loop has no effect on the result.
- The graph builder is a parameter: none, a build failure, or a dependency tree.
- The snapshot timestamp is a parameter, `now`.
- BowerRepository.ComponentNameExamples covers the test's paths that name no component. ComponentNameAt and ComponentNameOfEntry state the named cases generally instead of for the test's literal paths.
- CreateResources.JsonArrayRoundTrip: the list is written without escaping, so the round trip needs entries without double quotes. QuotesAreNotEscaped shows what goes wrong otherwise.
- The workflow script reads `maven-tasks/maven-inner-properties.json`, while the goal writes `grunt-maven.json` into the grunt build directory. The model links the two through the property values only.
- MavenWorkflow.Join models `path.posix.join` only. Windows separators and drive letters are not modelled.
- MavenWorkflow.WatchedFilesAgreeWithGoal is stated only for directories in normal form. For other directories the script watches the normalised path while the goal writes the concatenated one, and the two strings can differ.
- LinkNodeModulesMojo, CleanResourcesMojo, ExecNpmOfflineMojo and TarUtil are not part of this model.
- ResourceFactory.CreateOrUpdate: a failure returns no files. The model does not say that a package.json or bower.json created from the template stays on disk when the update after it fails.
- UpdatePackageJsonMojo.CreateAndSync: a failed Gruntfile.js copy returns no files. The model does not say that the package.json synchronised before it stays on disk.
- CreateResources.ExecuteAsWritten: the copy-resources execution is modelled as its request and whether it throws. The files it copies into the grunt build directory are not in the result.
- CreateResources.Execute: the same as for ExecuteAsWritten. The copied js sources are not in the result.

## Findings

| source | as written | input that shows it | evidently intended | confidence | as-written member | corrected member |
|---|---|---|---|---|---|---|
| src/main/java/pl/allegro/tdr/gruntmaven/ExecGruntMojo.java:118-122 | the response of `super.getVersion()` is passed to `Pattern.matcher`, but that response is null whenever the command fails | grunt not installed: the process cannot be started, or it exits with 127 | return null, as the javadoc promises, when the version cannot be determined | not executed | ExecGrunt.GetVersionAsWrittenThrows | ExecGrunt.GetVersionAgrees |
| src/main/java/pl/allegro/tdr/gruntmaven/CreateResourcesMojo.java:167-169 | the watch directory joins sourceDirectory and jsSourceDirectory with no separator | the defaults `src/main/webapp` and `static` give `.../src/main/webappstatic` | the js source directory `.../src/main/webapp/static`, as copied at line 102 and watched by maven-workflow.js:43 | not executed | CreateResources.WatchDirectoryAsWrittenMissesSeparator | CreateResources.WatchDirectoryIsResourceDirectory |
| src/main/java/pl/allegro/tdr/gruntmaven/UpdatePackageJsonMojo.java:38-45 | the target file joins sourceDirectory and jsSourceDirectory with no separator | the defaults give `src/main/webappstatic/package.json` | `src/main/webapp/static/package.json`, the file ResourceFactory documents at lines 33 and 52 | not executed | UpdatePackageJsonMojo.DefaultTargetAsWritten | UpdatePackageJsonMojo.TargetAgreesWithFactory |
