/** The `create-resources` goal: has maven-resources-plugin copy the js
    sources into the grunt build directory (the filtered resources through
    Maven filtering), then writes the workflow's inner properties file. */
module CreateResources {
  import opened Wrappers
  import opened Strings
  import opened Elements
  import opened Filters
  import opened Resources
  import opened BaseMojo

  const InnerPropertiesResourceName: string := "grunt-maven.json"
  const ResourcesMavenGroup: string := "org.apache.maven.plugins"
  const ResourcesMavenArtifact: string := "maven-resources-plugin"
  const ResourcesGoal: string := "copy-resources"
  const DefaultResourcesPluginVersion: string := "2.6"

  /** The include pattern of the unfiltered resource: every file. */
  const AllFiles: string := "**/*"

  // ------------------------------------------------- filtered files array

  function Quoted(entry: string): string {
    "\"" + entry + "\""
  }

  /** The entries, each between double quotes, separated by ", ". */
  function JoinQuoted(entries: seq<string>): string {
    if |entries| == 0 then ""
    else if |entries| == 1 then Quoted(entries[0])
    else Quoted(entries[0]) + ", " + JoinQuoted(entries[1..])
  }

  /** A JSON array of strings, written without escaping. */
  function JsonArray(entries: seq<string>): string {
    "[" + JoinQuoted(entries) + "]"
  }

  lemma {:induction false} JoinQuotedSnoc(entries: seq<string>, last: string)
    requires |entries| > 0
    ensures JoinQuoted(entries + [last]) == JoinQuoted(entries) + ", " + Quoted(last)
  {
    if |entries| == 1 {
      assert (entries + [last])[1..] == [last];
    } else {
      assert (entries + [last])[1..] == entries[1..] + [last];
      JoinQuotedSnoc(entries[1..], last);
    }
  }

  /** `filteredResourcesAsJSONArray()`: appends `"entry", ` for each entry,
      then deletes the last two characters when there was at least one. */
  method FilteredResourcesAsJsonArray(filteredResources: seq<string>) returns (json: string)
    ensures json == JsonArray(filteredResources)
  {
    var builder := "[";
    var index := 0;
    while index < |filteredResources|
      invariant 0 <= index <= |filteredResources|
      invariant builder == "[" + (if index == 0 then "" else JoinQuoted(filteredResources[..index]) + ", ")
    {
      if index > 0 {
        JoinQuotedSnoc(filteredResources[..index], filteredResources[index]);
      }
      assert filteredResources[..index + 1] == filteredResources[..index] + [filteredResources[index]];
      builder := builder + "\"" + filteredResources[index] + "\"" + ", ";
      index := index + 1;
    }
    assert filteredResources[..index] == filteredResources;
    if index > 0 {
      builder := builder[..|builder| - 2];
    }
    builder := builder + "]";
    json := builder;
  }

  /** Reads back a sequence of quoted entries separated by ", ". */
  function ParseEntries(s: string): Option<seq<string>>
    decreases |s|
  {
    if s == [] then Some([])
    else if s[0] != '"' then None
    else
      var close := IndexOfFrom(s, '"', 1);
      if close < 0 then None
      else
        var rest := s[close + 1..];
        if rest == [] then Some([s[1..close]])
        else if |rest| > 2 && rest[..2] == ", " then
          match ParseEntries(rest[2..])
          case None => None
          case Some(more) => Some([s[1..close]] + more)
        else None
  }

  /** Reads back a JSON array of unescaped strings, as the workflow script
      sees it. */
  function ParseJsonArray(s: string): Option<seq<string>> {
    if |s| >= 2 && s[0] == '[' && s[|s| - 1] == ']' then ParseEntries(s[1..|s| - 1]) else None
  }

  predicate NoQuotes(entries: seq<string>) {
    forall i :: 0 <= i < |entries| ==> '"' !in entries[i]
  }

  /** The closing quote of a quoted entry without quotes is found right
      after the entry. */
  lemma ClosingQuote(e: string, tail: string)
    requires '"' !in e
    ensures var s := Quoted(e) + tail;
      && s[0] == '"' && IndexOfFrom(s, '"', 1) == |e| + 1
      && s[1..|e| + 1] == e && s[|e| + 2..] == tail
  {
    var s := Quoted(e) + tail;
    assert s[|e| + 1] == '"';
    assert forall i :: 1 <= i <= |e| ==> s[i] == e[i - 1];
    assert s[1..|e| + 1] == e;
    assert s[|e| + 2..] == tail;
  }

  /** The reader on a single quoted entry. */
  lemma ParseEntriesSingle(e: string)
    requires '"' !in e
    ensures ParseEntries(Quoted(e)) == Some([e])
  {
    ClosingQuote(e, "");
    assert Quoted(e) + "" == Quoted(e);
  }

  /** The reader on a quoted entry followed by ", " and more entries. */
  lemma ParseEntriesCons(e: string, rest: string, more: seq<string>)
    requires '"' !in e && rest != [] && ParseEntries(rest) == Some(more)
    ensures ParseEntries(Quoted(e) + ", " + rest) == Some([e] + more)
  {
    var tail := ", " + rest;
    ClosingQuote(e, tail);
    assert Quoted(e) + ", " + rest == Quoted(e) + tail;
    assert tail[..2] == ", " && tail[2..] == rest;
  }

  /** The inductive step: reading the first entry, then the rest. */
  lemma JoinQuotedConsParses(entries: seq<string>)
    requires |entries| > 1 && '"' !in entries[0]
    requires ParseEntries(JoinQuoted(entries[1..])) == Some(entries[1..])
    ensures ParseEntries(JoinQuoted(entries)) == Some(entries)
  {
    var rest := JoinQuoted(entries[1..]);
    assert rest != [] by {
      assert rest[0] == '"';
    }
    ParseEntriesCons(entries[0], rest, entries[1..]);
    assert [entries[0]] + entries[1..] == entries;
  }

  lemma {:induction false} ParseJoinQuoted(entries: seq<string>)
    requires NoQuotes(entries)
    ensures ParseEntries(JoinQuoted(entries)) == Some(entries)
    decreases |entries|
  {
    if |entries| == 1 {
      ParseEntriesSingle(entries[0]);
      assert [entries[0]] == entries;
    } else if |entries| > 1 {
      var more := entries[1..];
      assert NoQuotes(more) by {
        forall i | 0 <= i < |more|
          ensures '"' !in more[i]
        {
          assert more[i] == entries[i + 1];
        }
      }
      ParseJoinQuoted(more);
      JoinQuotedConsParses(entries);
    }
  }

  /** When no entry contains a double quote, the workflow script reads back
      exactly the entries the goal wrote, in order. */
  lemma JsonArrayRoundTrip(entries: seq<string>)
    requires NoQuotes(entries)
    ensures ParseJsonArray(JsonArray(entries)) == Some(entries)
  {
    var s := JsonArray(entries);
    assert s[1..|s| - 1] == JoinQuoted(entries);
    ParseJoinQuoted(entries);
  }

  /** An empty list becomes "[]". */
  lemma EmptyJsonArray()
    ensures JsonArray([]) == "[]"
  {
  }

  /** Entries go between the quotes unescaped, so one entry holding a quote
      and a separator prints like two entries. */
  lemma QuotesAreNotEscaped()
    ensures JsonArray(["a\", \"b"]) == JsonArray(["a", "b"])
  {
    assert JoinQuoted(["a", "b"]) == Quoted("a") + ", " + JoinQuoted(["b"]);
  }

  // ---------------------------------------------------- resource elements

  /** `Boolean.toString`. */
  function BooleanText(b: bool): string {
    if b then "true" else "false"
  }

  /** One `resource` element of maven-resources-plugin. */
  function ResourceElement(directory: string, includes: seq<Element>, filtering: bool): Element {
    Node("resource", [Text("directory", directory), Node("includes", includes), Text("filtering", BooleanText(filtering))])
  }

  /** The texts of the text elements among `es`, in order. */
  function Texts(es: seq<Element>): seq<string> {
    if es == [] then []
    else (if es[0].Text? then [es[0].text] else []) + Texts(es[1..])
  }

  /** The first child element called `name`. */
  function Child(children: seq<Element>, name: string): Option<Element> {
    if children == [] then None
    else if children[0].name == name then Some(children[0])
    else Child(children[1..], name)
  }

  /** The include patterns of a `resource` element. */
  function Includes(resource: Element): seq<string> {
    if !resource.Node? then []
    else
      match Child(resource.children, "includes")
      case Some(Node(_, patterns)) => Texts(patterns)
      case _ => []
  }

  /** A text child of a `resource` element. */
  function Setting(resource: Element, name: string): Option<string> {
    if !resource.Node? then None
    else
      match Child(resource.children, name)
      case Some(Text(_, value)) => Some(value)
      case _ => None
  }

  /** The directory, include patterns and filtering flag of a resource
      element read back from it. */
  lemma ResourceElementParts(directory: string, includes: seq<Element>, filtering: bool)
    ensures var e := ResourceElement(directory, includes, filtering);
      && Setting(e, "directory") == Some(directory)
      && Includes(e) == Texts(includes)
      && Setting(e, "filtering") == Some(BooleanText(filtering))
  {
    var children := ResourceElement(directory, includes, filtering).children;
    assert "directory"[0] == 'd' && "includes"[0] == 'i' && "filtering"[0] == 'f';
    assert Child(children, "includes") == Some(Node("includes", includes));
    var rest := children[1..];
    assert rest[0].name == "includes" && rest[1..] == children[2..];
    assert Child(children[2..], "filtering") == Some(Text("filtering", BooleanText(filtering)));
    assert Child(rest, "filtering") == Child(children[2..], "filtering");
    assert Child(children, "filtering") == Some(Text("filtering", BooleanText(filtering)));
  }

  /** `createFilteredResources()`: one `include` per filtered resource, in
      order. */
  method CreateFilteredResources(filteredResources: seq<string>) returns (elements: seq<Element>)
    ensures |elements| == |filteredResources|
    ensures forall i :: 0 <= i < |elements| ==> elements[i] == Text("include", filteredResources[i])
    ensures Texts(elements) == filteredResources
  {
    elements := [];
    var index := 0;
    while index < |filteredResources|
      invariant 0 <= index <= |filteredResources|
      invariant |elements| == index
      invariant forall i :: 0 <= i < index ==> elements[i] == Text("include", filteredResources[i])
    {
      elements := elements + [Text("include", filteredResources[index])];
      index := index + 1;
    }
    IncludeTexts(elements, filteredResources);
  }

  lemma {:induction false} IncludeTexts(elements: seq<Element>, patterns: seq<string>)
    requires |elements| == |patterns|
    requires forall i :: 0 <= i < |elements| ==> elements[i] == Text("include", patterns[i])
    ensures Texts(elements) == patterns
    decreases |elements|
  {
    if elements != [] {
      IncludeTexts(elements[1..], patterns[1..]);
      assert patterns == [patterns[0]] + patterns[1..];
    }
  }

  /** The resource directory, "sourceDirectory/jsSourceDirectory": the
      relative js source directory with '/' as the separator. */
  function ResourceDirectory(d: Directories): (r: string)
    ensures r == RelativeJsSourceDirectory(d, "/")
  {
    d.sourceDirectory + "/" + d.jsSourceDirectory
  }

  /** `createResourceElements()`: every file of the js source directory
      copied unfiltered, then, only when there are filtered resources, those
      files again with filtering on. */
  method CreateResourceElements(d: Directories, filteredResources: seq<string>) returns (resources: seq<Element>)
    ensures |resources| == if |filteredResources| > 0 then 2 else 1
    ensures forall i :: 0 <= i < |resources| ==> Setting(resources[i], "directory") == Some(ResourceDirectory(d))
    ensures Includes(resources[0]) == [AllFiles] && Setting(resources[0], "filtering") == Some("false")
    ensures |filteredResources| > 0 ==>
      Includes(resources[1]) == filteredResources && Setting(resources[1], "filtering") == Some("true")
  {
    var directory := d.sourceDirectory + "/" + d.jsSourceDirectory;
    var normal := ResourceElement(directory, [Text("include", AllFiles)], false);
    ResourceElementParts(directory, [Text("include", AllFiles)], false);
    assert Texts([Text("include", AllFiles)]) == [AllFiles];
    resources := [normal];
    if |filteredResources| > 0 {
      var includes := CreateFilteredResources(filteredResources);
      ResourceElementParts(directory, includes, true);
      resources := resources + [ResourceElement(directory, includes, true)];
    }
  }

  /** The configuration handed to copy-resources. */
  method Configuration(d: Directories, overwriteResources: bool, filteredResources: seq<string>)
    returns (configuration: seq<Element>)
    ensures ConfigurationRequested(configuration, d, overwriteResources, filteredResources)
  {
    var resources := CreateResourceElements(d, filteredResources);
    configuration := [Text("overwrite", BooleanText(overwriteResources)),
                      Text("outputDirectory", d.gruntBuildDirectory),
                      Node("resources", resources)];
  }

  /** The configuration copy-resources is given: overwrite as configured,
      output to the grunt build directory, and the resources element
      copying the js source directory, the filtered files through Maven
      filtering. */
  predicate ConfigurationRequested(configuration: seq<Element>, d: Directories, overwriteResources: bool,
                                   filteredResources: seq<string>) {
    && |configuration| == 3
    && configuration[0] == Text("overwrite", BooleanText(overwriteResources))
    && configuration[1] == Text("outputDirectory", d.gruntBuildDirectory)
    && configuration[2].Node? && configuration[2].name == "resources"
    && var resources := configuration[2].children;
    && |resources| == (if |filteredResources| > 0 then 2 else 1)
    && (forall i :: 0 <= i < |resources| ==> Setting(resources[i], "directory") == Some(ResourceDirectory(d)))
    && Includes(resources[0]) == [AllFiles] && Setting(resources[0], "filtering") == Some("false")
    && (|filteredResources| > 0 ==>
          Includes(resources[1]) == filteredResources && Setting(resources[1], "filtering") == Some("true"))
  }

  // ---------------------------------------------------------------- paths

  /** `pathToWorkflowTasksDirectory()`: the grunt build directory followed
      by the separator twice, once from `pathToGruntBuildDirectory()` and
      once of its own. */
  function PathToWorkflowTasksDirectory(d: Directories, separator: string): (r: string)
    ensures StartsWith(r, d.gruntBuildDirectory) && EndsWith(r, separator + separator)
    ensures |r| == |d.gruntBuildDirectory| + 2 * |separator|
  {
    var r := d.gruntBuildDirectory + separator + separator;
    assert r[..|d.gruntBuildDirectory|] == d.gruntBuildDirectory;
    assert r[|r| - |separator + separator|..] == separator + separator;
    r
  }

  /** `pathToWatchDirectory()` as written: the base directory and a
      separator, then the source directory and the js source directory
      with nothing between them. */
  function PathToWatchDirectoryAsWritten(d: Directories, separator: string): (r: string)
    ensures StartsWith(r, d.basedir + separator + d.sourceDirectory) && EndsWith(r, d.jsSourceDirectory)
    ensures |r| == |d.basedir| + |separator| + |d.sourceDirectory| + |d.jsSourceDirectory|
  {
    var prefix := d.basedir + separator + d.sourceDirectory;
    var r := prefix + d.jsSourceDirectory;
    assert r[..|prefix|] == prefix;
    assert r[|r| - |d.jsSourceDirectory|..] == d.jsSourceDirectory;
    r
  }

  /** The watch directory as evidently intended: the js source directory. */
  function PathToWatchDirectory(d: Directories, separator: string): (r: string)
    ensures r == d.basedir + separator + RelativeJsSourceDirectory(d, separator)
  {
    FullJsSourceDirectory(d, separator)
  }

  /** The watch pattern: everything below the watch directory. */
  function FilesToWatch(watchDirectory: string, separator: string): (r: string)
    ensures StartsWith(r, watchDirectory) && EndsWith(r, separator + "**")
    ensures |r| == |watchDirectory| + |separator| + 2
  {
    var r := watchDirectory + separator + "**";
    assert r[..|watchDirectory|] == watchDirectory;
    assert r[|r| - |separator + "**"|..] == separator + "**";
    r
  }

  /** With the default directories the watch directory as written is
      ".../src/main/webappstatic", which differs from the js source
      directory ".../src/main/webapp/static" the resources are copied
      from. */
  lemma WatchDirectoryAsWrittenMissesSeparator(basedir: string, gruntBuildDirectory: string)
    ensures var d := Directories(basedir, DefaultSourceDirectory, DefaultJsSourceDirectory, gruntBuildDirectory);
      && PathToWatchDirectoryAsWritten(d, "/") == basedir + "/" + "src/main/webappstatic"
      && PathToWatchDirectory(d, "/") == basedir + "/" + "src/main/webapp/static"
      && PathToWatchDirectoryAsWritten(d, "/") != PathToWatchDirectory(d, "/")
  {
    var d := Directories(basedir, DefaultSourceDirectory, DefaultJsSourceDirectory, gruntBuildDirectory);
    assert DefaultSourceDirectory + DefaultJsSourceDirectory == "src/main/webappstatic";
    assert PathToWatchDirectoryAsWritten(d, "/") == basedir + "/" + (DefaultSourceDirectory + DefaultJsSourceDirectory);
    DefaultRelativeJsSourceDirectory(basedir, gruntBuildDirectory);
    assert |PathToWatchDirectoryAsWritten(d, "/")| != |PathToWatchDirectory(d, "/")|;
  }

  /** The watch directory decides the first two filters only: the goal as
      written and the corrected one write the same project root, target,
      directories and filtered files. */
  lemma WatchDirectoryDecidesFirstFilters(d: Directories, separator: string, target: string, filteredFiles: string)
    ensures var asWritten := InnerPropertiesResource(d, separator, PathToWatchDirectoryAsWritten(d, separator), target, filteredFiles);
      var corrected := InnerPropertiesResource(d, separator, PathToWatchDirectory(d, separator), target, filteredFiles);
      && asWritten.resourceName == corrected.resourceName
      && asWritten.filters[2..] == corrected.filters[2..]
      && (separator != "" ==> asWritten.filters[0] != corrected.filters[0] && asWritten.filters[1] != corrected.filters[1])
  {
    var asWritten := InnerPropertiesResource(d, separator, PathToWatchDirectoryAsWritten(d, separator), target, filteredFiles);
    var corrected := InnerPropertiesResource(d, separator, PathToWatchDirectory(d, separator), target, filteredFiles);
    assert asWritten.filters[2..] == corrected.filters[2..];
    if separator != "" {
      assert |asWritten.filters[1].value| < |corrected.filters[1].value|;
      assert |asWritten.filters[0].value| < |corrected.filters[0].value|;
    }
  }

  /** The corrected watch directory is the directory the resources element
      copies from, resolved against the base directory. */
  lemma WatchDirectoryIsResourceDirectory(d: Directories)
    ensures PathToWatchDirectory(d, "/") == d.basedir + "/" + ResourceDirectory(d)
  {
  }

  // ----------------------------------------------------- inner properties

  /** The inner properties template with its seven filters. */
  function InnerPropertiesResource(d: Directories, separator: string, watchDirectory: string,
                                   target: string, filteredFiles: string): (r: Resource)
    ensures r.resourceName == "/" + InnerPropertiesResourceName
    ensures |r.filters| == 7
    ensures r.filters[0] == MakeFilter("filesToWatch", FilesToWatch(watchDirectory, separator))
    ensures r.filters[1] == MakeFilter("directoryToWatch", watchDirectory)
    ensures r.filters[2] == MakeFilter("projectRootPath", d.basedir)
    ensures r.filters[3] == MakeFilter("targetPath", target)
    ensures r.filters[4] == MakeFilter("sourceDirectory", d.sourceDirectory)
    ensures r.filters[5] == MakeFilter("jsSourceDirectory", d.jsSourceDirectory)
    ensures r.filters[6] == MakeFilter("filteredFiles", filteredFiles)
  {
    var r := From("/" + InnerPropertiesResourceName);
    var r := WithFilter(r, "filesToWatch", FilesToWatch(watchDirectory, separator));
    var r := WithFilter(r, "directoryToWatch", watchDirectory);
    var r := WithFilter(r, "projectRootPath", d.basedir);
    var r := WithFilter(r, "targetPath", target);
    var r := WithFilter(r, "sourceDirectory", d.sourceDirectory);
    var r := WithFilter(r, "jsSourceDirectory", d.jsSourceDirectory);
    WithFilter(r, "filteredFiles", filteredFiles)
  }

  /** `createInnerPropertiesResource()`: always overwrites the properties
      file in the workflow tasks directory. */
  function CreateInnerPropertiesResource(files: FileMap, d: Directories, separator: string, watchDirectory: string,
                                         target: string, filteredFiles: string, order: seq<Filter>,
                                         templateText: Option<string>, writeFails: bool)
    : (r: Result<FileMap, ResourceCreationException>)
    requires IsIterationOrder(InnerPropertiesResource(d, separator, watchDirectory, target, filteredFiles), order)
    ensures var path := PathToWorkflowTasksDirectory(d, separator) + InnerPropertiesResourceName;
      var resource := InnerPropertiesResource(d, separator, watchDirectory, target, filteredFiles);
      && (r.Success? <==> templateText.Some? && !writeFails)
      && (r.Success? ==> r.value == files[path := FilterContents(resource, order, templateText.value)])
  {
    CopyAndOverwrite(files, InnerPropertiesResource(d, separator, watchDirectory, target, filteredFiles), order,
                     templateText, writeFails, PathToWorkflowTasksDirectory(d, separator) + InnerPropertiesResourceName)
  }

  // -------------------------------------------------------------- execute

  /** What stops the goal: the copy-resources execution throwing
      `MojoExecutionException` before anything else runs, or the properties
      file not being written. */
  datatype GoalError = CopyResourcesFailed | PropertiesNotWritten(cause: ResourceCreationException)

  /** The copy-resources execution the goal requests. */
  datatype PluginExecution = PluginExecution(
    groupId: string, artifactId: string, version: string, goal: string, configuration: seq<Element>)

  /** `execute()` as written: the copy-resources execution it requests
      (`copyFails` stands for that execution throwing) and the files after
      the inner properties are written, with the watch directory of
      `pathToWatchDirectory()`. Creating the workflow tasks
      directory is not modelled: the file map has no directories. */
  method ExecuteAsWritten(files: FileMap, d: Directories, separator: string, target: string, pluginVersion: string,
                          overwriteResources: bool, filteredResources: seq<string>, order: seq<Filter>,
                          copyFails: bool, templateText: Option<string>, writeFails: bool)
    returns (execution: PluginExecution, r: Result<FileMap, GoalError>)
    requires IsIterationOrder(InnerPropertiesResource(d, separator, PathToWatchDirectoryAsWritten(d, separator), target,
                                                      JsonArray(filteredResources)), order)
    ensures execution.groupId == ResourcesMavenGroup && execution.artifactId == ResourcesMavenArtifact
    ensures execution.version == pluginVersion && execution.goal == ResourcesGoal
    ensures ConfigurationRequested(execution.configuration, d, overwriteResources, filteredResources)
    ensures var path := PathToWorkflowTasksDirectory(d, separator) + InnerPropertiesResourceName;
      var resource := InnerPropertiesResource(d, separator, PathToWatchDirectoryAsWritten(d, separator), target,
                                              JsonArray(filteredResources));
      && (r.Success? <==> !copyFails && templateText.Some? && !writeFails)
      && (copyFails ==> r == Failure(CopyResourcesFailed))
      && (!copyFails && r.Failure? ==> r.error == PropertiesNotWritten(ResourceCreationException(resource.resourceName, path)))
      && (r.Success? ==> r.value == files[path := FilterContents(resource, order, templateText.value)])
  {
    var configuration := Configuration(d, overwriteResources, filteredResources);
    execution := PluginExecution(ResourcesMavenGroup, ResourcesMavenArtifact, pluginVersion, ResourcesGoal, configuration);
    if copyFails {
      return execution, Failure(CopyResourcesFailed);
    }
    var filteredFiles := FilteredResourcesAsJsonArray(filteredResources);
    var written := CreateInnerPropertiesResource(files, d, separator, PathToWatchDirectoryAsWritten(d, separator), target,
                                                 filteredFiles, order, templateText, writeFails);
    r := match written
         case Success(after) => Success(after)
         case Failure(e) => Failure(PropertiesNotWritten(e));
  }

  /** `execute()` with the watch directory as evidently intended: the same
      execution, and the inner properties written with the js source
      directory as the watch directory. */
  method Execute(files: FileMap, d: Directories, separator: string, target: string, pluginVersion: string,
                 overwriteResources: bool, filteredResources: seq<string>, order: seq<Filter>,
                 copyFails: bool, templateText: Option<string>, writeFails: bool)
    returns (execution: PluginExecution, r: Result<FileMap, GoalError>)
    requires IsIterationOrder(InnerPropertiesResource(d, separator, PathToWatchDirectory(d, separator), target,
                                                      JsonArray(filteredResources)), order)
    ensures execution.groupId == ResourcesMavenGroup && execution.artifactId == ResourcesMavenArtifact
    ensures execution.version == pluginVersion && execution.goal == ResourcesGoal
    ensures ConfigurationRequested(execution.configuration, d, overwriteResources, filteredResources)
    ensures var path := PathToWorkflowTasksDirectory(d, separator) + InnerPropertiesResourceName;
      var resource := InnerPropertiesResource(d, separator, PathToWatchDirectory(d, separator), target,
                                              JsonArray(filteredResources));
      && (r.Success? <==> !copyFails && templateText.Some? && !writeFails)
      && (copyFails ==> r == Failure(CopyResourcesFailed))
      && (!copyFails && r.Failure? ==> r.error == PropertiesNotWritten(ResourceCreationException(resource.resourceName, path)))
      && (r.Success? ==> r.value == files[path := FilterContents(resource, order, templateText.value)])
  {
    var configuration := Configuration(d, overwriteResources, filteredResources);
    execution := PluginExecution(ResourcesMavenGroup, ResourcesMavenArtifact, pluginVersion, ResourcesGoal, configuration);
    if copyFails {
      return execution, Failure(CopyResourcesFailed);
    }
    var filteredFiles := FilteredResourcesAsJsonArray(filteredResources);
    var written := CreateInnerPropertiesResource(files, d, separator, PathToWatchDirectory(d, separator), target,
                                                 filteredFiles, order, templateText, writeFails);
    r := match written
         case Success(after) => Success(after)
         case Failure(e) => Failure(PropertiesNotWritten(e));
  }
}
