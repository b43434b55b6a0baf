/** The `bower-maven` goal: finds bower packages inside the project's
    dependency jars, repackages each as a zip in the grunt build directory
    and lists the zips as bower dependencies in bower.json. Archives are
    given by the names of their entries; the bytes copied are not
    modelled. */
module BowerRepository {
  import opened Wrappers
  import opened Strings
  import opened JsonModel
  import opened BaseMojo

  const BowerMavenFolder: string := "bower-maven-repo/"
  const WebjarsPath: string := "META-INF/resources/webjars/"

  // ------------------------------------------------------ component names

  /** The number of '/' characters in `s`. */
  function SlashCount(s: string): nat {
    multiset(s)['/']
  }

  /** `k` is the index of the second '/' of `path`. */
  predicate SecondSlashAt(path: string, k: int) {
    0 <= k < |path| && path[k] == '/' && SlashCount(path[..k]) == 1
  }

  lemma NoSlashCount(s: string)
    requires '/' !in s
    ensures SlashCount(s) == 0
  {
  }

  /** A prefix made of a slash-free part, one '/', and another slash-free
      part holds exactly one '/'. */
  lemma OneSlash(path: string, first: int, limit: int)
    requires 0 <= first < limit <= |path| && path[first] == '/'
    requires '/' !in path[..first]
    requires forall i :: first < i < limit ==> path[i] != '/'
    ensures SlashCount(path[..limit]) == 1
  {
    assert path[..limit] == path[..first] + [path[first]] + path[first + 1..limit];
    NoSlashCount(path[..first]);
    assert '/' !in path[first + 1..limit];
    NoSlashCount(path[first + 1..limit]);
  }

  /** A prefix holding '/' at two places holds at least two. */
  lemma TwoSlashes(path: string, i: int, j: int, k: int)
    requires 0 <= i < j < k <= |path| && path[i] == '/' && path[j] == '/'
    ensures SlashCount(path[..k]) >= 2
  {
    assert path[..k] == path[..i] + [path[i]] + path[i + 1..j] + [path[j]] + path[j + 1..k];
  }

  /** `getComponentNameFromPath`: the path up to its second '/', provided
      the path has at least four characters and something follows that
      '/'. */
  function ComponentNameFromPath(path: string): (r: Option<string>)
    ensures r.Some? <==> |path| >= 4 && exists k :: SecondSlashAt(path, k) && k < |path| - 1
    ensures r.Some? ==> SecondSlashAt(path, |r.value|) && r.value == path[..|r.value|]
  {
    if |path| < 4 then None
    else
      var first := IndexOf(path, '/');
      var limit := IndexOfFrom(path, '/', first + 1);
      if limit < 0 then
        assert forall k :: !SecondSlashAt(path, k) by {
          forall k | 0 <= k < |path| && path[k] == '/'
            ensures SlashCount(path[..k]) != 1
          {
            assert k == first;
            NoSlashCount(path[..k]);
          }
        }
        None
      else
        assert first >= 0;
        OneSlash(path, first, limit);
        var full := path[..limit];
        assert forall k :: SecondSlashAt(path, k) ==> k == limit by {
          forall k | SecondSlashAt(path, k)
            ensures k == limit
          {
            if k == first {
              NoSlashCount(path[..k]);
            } else if k > limit {
              TwoSlashes(path, first, limit, k);
            }
          }
        }
        assert SecondSlashAt(path, limit);
        if |path| == |full| + 1 then None else Some(full)
  }

  /** Past a second '/' every prefix holds at least two. */
  lemma PastSecondSlash(path: string, k: int, m: int)
    requires SecondSlashAt(path, k) && k < m <= |path|
    ensures SlashCount(path[..m]) >= 2
  {
    assert '/' in path[..k];
    var j :| 0 <= j < k && path[..k][j] == '/';
    TwoSlashes(path, j, k, m);
  }

  /** A path has at most one second '/'. */
  lemma SecondSlashUnique(path: string, k1: int, k2: int)
    requires SecondSlashAt(path, k1) && SecondSlashAt(path, k2)
    ensures k1 == k2
  {
    if k1 < k2 {
      PastSecondSlash(path, k1, k2);
    } else if k2 < k1 {
      PastSecondSlash(path, k2, k1);
    }
  }

  /** A path with no two '/' names no component. */
  lemma AtMostOneSlash(path: string, slash: int)
    requires forall i :: 0 <= i < |path| && path[i] == '/' ==> i == slash
    ensures ComponentNameFromPath(path) == None
  {
  }

  /** A path whose second '/' is its last character names no component. */
  lemma SecondSlashIsLast(path: string, first: int)
    requires 0 <= first < |path| - 1 && path[first] == '/' && path[|path| - 1] == '/'
    requires forall i :: 0 <= i < |path| - 1 && i != first ==> path[i] != '/'
    ensures ComponentNameFromPath(path) == None
  {
    assert '/' !in path[..first];
    OneSlash(path, first, |path| - 1);
  }

  /** The paths the component-name unit test expects no name for: too
      short, without a second '/', or ending at it. */
  lemma ComponentNameExamples()
    ensures ComponentNameFromPath("") == None
    ensures ComponentNameFromPath("component") == None
    ensures ComponentNameFromPath("component/") == None
    ensures ComponentNameFromPath("component/1.0.0") == None
    ensures ComponentNameFromPath("component/1.0.0/") == None
  {
    NoSecondSlashExample("component", -1);
    NoSecondSlashExample("component/", 9);
    NoSecondSlashExample("component/1.0.0", 9);
    SecondSlashLastExample("component/1.0.0/");
  }

  /** The unit test's paths with at most one '/'. */
  lemma NoSecondSlashExample(path: string, slash: int)
    requires path == "component" || path == "component/" || path == "component/1.0.0"
    requires slash == (if path == "component" then -1 else 9)
    ensures ComponentNameFromPath(path) == None
  {
    AtMostOneSlash(path, slash);
  }

  /** The unit test's path that ends at its second '/'. */
  lemma SecondSlashLastExample(path: string)
    requires path == "component/1.0.0/"
    ensures ComponentNameFromPath(path) == None
  {
    SecondSlashIsLast(path, 9);
  }

  /** A path whose second '/' is not its last character names the part
      before that '/'. */
  lemma ComponentNameAt(path: string, k: int)
    requires SecondSlashAt(path, k) && k < |path| - 1 && |path| >= 4
    ensures ComponentNameFromPath(path) == Some(path[..k])
  {
    SecondSlashUnique(path, k, |ComponentNameFromPath(path).value|);
  }

  /** A component path with one more path segment below it names that
      component. */
  lemma ComponentNameOfEntry(component: string, version: string, inner: string)
    requires '/' !in component && '/' !in version && inner != ""
    requires |component| + |version| >= 2
    ensures ComponentNameFromPath(component + "/" + version + "/" + inner) == Some(component + "/" + version)
  {
    var path := component + "/" + version + "/" + inner;
    var k := |component| + 1 + |version|;
    assert path[..k] == component + "/" + version;
    assert path[k] == '/';
    OneSlash(path, |component|, k);
    assert SecondSlashAt(path, k);
  }

  // ----------------------------------------------------- webjar components

  /** A component of a webjar: the full name "name/version" split at its
      first '/', and the zip it is repackaged into. */
  datatype WebjarComponent = WebjarComponent(name: string, version: string, zipFileName: string)

  /** `toString()`: the zip's file name without the directory. */
  function ComponentFileName(c: WebjarComponent): string {
    c.name + "-" + c.version + ".zip"
  }

  /** `new WebjarComponent(fullname, outputDir)`. */
  function NewWebjarComponent(fullname: string, outputDir: string): (c: WebjarComponent)
    requires '/' in fullname
    ensures fullname == c.name + "/" + c.version && '/' !in c.name
    ensures c.zipFileName == outputDir + ComponentFileName(c)
  {
    var slash := IndexOf(fullname, '/');
    assert fullname == fullname[..slash] + "/" + fullname[slash + 1..];
    WebjarComponent(fullname[..slash], fullname[slash + 1..], outputDir + fullname[..slash] + "-" + fullname[slash + 1..] + ".zip")
  }

  /** The path of an entry below the jar source directory, when the entry
      lies inside that directory and is not the directory itself. */
  function PathBelow(entryName: string, jarSourceDirectory: string): (r: Option<string>)
    ensures r.Some? <==> StartsWith(entryName, jarSourceDirectory) && |entryName| > |jarSourceDirectory|
    ensures r.Some? ==> entryName == jarSourceDirectory + r.value && r.value != ""
  {
    if StartsWith(entryName, jarSourceDirectory) && |entryName| > |jarSourceDirectory| then
      assert entryName == jarSourceDirectory + entryName[|jarSourceDirectory|..];
      Some(entryName[|jarSourceDirectory|..])
    else None
  }

  /** The component a webjar entry belongs to and the entry's path inside
      the component's zip. */
  function WebjarEntry(entryName: string, jarSourceDirectory: string): (r: Option<(string, string)>)
    ensures r.Some? <==> PathBelow(entryName, jarSourceDirectory).Some?
                         && ComponentNameFromPath(PathBelow(entryName, jarSourceDirectory).value).Some?
    ensures r.Some? ==> entryName == jarSourceDirectory + r.value.0 + "/" + r.value.1
    ensures r.Some? ==> r.value.1 != "" && SlashCount(r.value.0) == 1
  {
    match PathBelow(entryName, jarSourceDirectory)
    case None => None
    case Some(path) =>
      match ComponentNameFromPath(path)
      case None => None
      case Some(full) =>
        assert path == full + "/" + path[|full| + 1..];
        Some((full, path[|full| + 1..]))
  }

  /** An entry in a component directory is routed back to that component
      and to its path inside it. */
  lemma WebjarEntryRoundTrip(jarSourceDirectory: string, component: string, version: string, inner: string)
    requires '/' !in component && '/' !in version && inner != ""
    requires |component| + |version| >= 2
    ensures WebjarEntry(jarSourceDirectory + component + "/" + version + "/" + inner, jarSourceDirectory)
         == Some((component + "/" + version, inner))
  {
    var entry := jarSourceDirectory + component + "/" + version + "/" + inner;
    assert PathBelow(entry, jarSourceDirectory) == Some(component + "/" + version + "/" + inner) by {
      assert entry[..|jarSourceDirectory|] == jarSourceDirectory;
      assert entry[|jarSourceDirectory|..] == component + "/" + version + "/" + inner;
    }
    ComponentNameOfEntry(component, version, inner);
    var path := component + "/" + version + "/" + inner;
    assert path[|component + "/" + version| + 1..] == inner;
  }

  // ------------------------------------------------------ dependency keys

  /** Webjar mode: the jar source directory is the webjars path. */
  predicate WebJarMode(jarSourceDirectory: string) {
    jarSourceDirectory == WebjarsPath
  }

  /** The bower dependency name of a webjar component: the jar's file name
      and the component's name, joined by '-'. */
  function WebjarDependencyKey(jarFileName: string, componentName: string): string {
    jarFileName + "-" + componentName
  }

  /** The bower dependency name of a jar holding one bower package: the
      group id and the artifact id, joined by '.'. */
  function BowerDependencyKey(groupId: string, artifactId: string): string {
    groupId + "." + artifactId
  }

  /** In `x + [c] + y` with `y` free of `c`, the last `c` sits at `|x|`. */
  lemma LastOccurrence(x: string, y: string, c: char)
    requires c !in y
    ensures (x + [c] + y)[|x|] == c
    ensures forall i :: |x| < i < |x + [c] + y| ==> (x + [c] + y)[i] != c
  {
    var t := x + [c] + y;
    forall i | |x| < i < |t| ensures t[i] != c {
      assert t[i] == y[i - |x| - 1];
    }
  }

  /** Two texts joined by `c`, the second free of `c`, are read back by
      splitting at the last `c`. */
  lemma JoinedAtLastInjective(x1: string, y1: string, x2: string, y2: string, c: char)
    requires c !in y1 && c !in y2
    requires x1 + [c] + y1 == x2 + [c] + y2
    ensures x1 == x2 && y1 == y2
  {
    var t := x1 + [c] + y1;
    LastOccurrence(x1, y1, c);
    LastOccurrence(x2, y2, c);
    assert |x1| == |x2|;
    assert x1 == t[..|x1|] == x2;
    assert y1 == t[|x1| + 1..] == y2;
  }

  /** Webjar keys of component names without '-' name one jar and one
      component each. */
  lemma WebjarDependencyKeyInjective(jar1: string, component1: string, jar2: string, component2: string)
    requires '-' !in component1 && '-' !in component2
    requires WebjarDependencyKey(jar1, component1) == WebjarDependencyKey(jar2, component2)
    ensures jar1 == jar2 && component1 == component2
  {
    JoinedAtLastInjective(jar1, component1, jar2, component2, '-');
  }

  /** Bower keys of artifact ids without '.' name one artifact each: the
      group id may itself hold dots. */
  lemma BowerDependencyKeyInjective(group1: string, artifact1: string, group2: string, artifact2: string)
    requires '.' !in artifact1 && '.' !in artifact2
    requires BowerDependencyKey(group1, artifact1) == BowerDependencyKey(group2, artifact2)
    ensures group1 == group2 && artifact1 == artifact2
  {
    JoinedAtLastInjective(group1, artifact1, group2, artifact2, '.');
  }

  /** The timestamp suffix a snapshot's zip carries; `now` stands for the
      current time in milliseconds, as text. */
  function SnapshotSuffix(snapshot: bool, now: string): string {
    if snapshot then now else ""
  }

  /** The zip a jar's bower package is repackaged into. */
  function BowerZipFileName(outputDir: string, separator: string, jarFileName: string, suffix: string): (r: string)
    ensures StartsWith(r, outputDir) && EndsWith(r, jarFileName + suffix + ".zip")
    ensures r == WithTrailing(outputDir, separator) + jarFileName + suffix + ".zip"
  {
    var dir := WithTrailing(outputDir, separator);
    var r := dir + jarFileName + suffix + ".zip";
    assert r[..|outputDir|] == outputDir;
    assert r[|r| - |jarFileName + suffix + ".zip"|..] == jarFileName + suffix + ".zip";
    r
  }

  /** A release's zip is named after the jar alone; a snapshot's carries
      the timestamp between the jar's name and ".zip", so every snapshot
      build gets a zip of its own. */
  lemma SnapshotZipFileName(outputDir: string, separator: string, jarFileName: string, now: string)
    ensures BowerZipFileName(outputDir, separator, jarFileName, SnapshotSuffix(false, now))
         == WithTrailing(outputDir, separator) + jarFileName + ".zip"
    ensures BowerZipFileName(outputDir, separator, jarFileName, SnapshotSuffix(true, now))
         == WithTrailing(outputDir, separator) + jarFileName + now + ".zip"
  {
    assert jarFileName + "" == jarFileName;
  }

  /** `s` extended by `tail`, with exactly one '/' between them. */
  lemma BelowDirectory(s: string, tail: string)
    ensures StartsWith(WithTrailing(s, "/") + tail, s)
    ensures EndsWith(WithTrailing(s, "/") + tail, tail)
    ensures EndsWith(s, "/") ==> WithTrailing(s, "/") + tail == s + tail
    ensures !EndsWith(s, "/") ==> WithTrailing(s, "/") + tail == s + "/" + tail
  {
    var r := WithTrailing(s, "/") + tail;
    assert r[..|s|] == s;
    assert r[|r| - |tail|..] == tail;
  }

  /** Where bower.json is read and written: inside the grunt build
      directory, one '/' after it. */
  function BowerJsonPath(gruntBuildDirectory: string): (r: string)
    ensures StartsWith(r, gruntBuildDirectory) && EndsWith(r, "bower.json")
    ensures EndsWith(gruntBuildDirectory, "/") ==> r == gruntBuildDirectory + "bower.json"
    ensures !EndsWith(gruntBuildDirectory, "/") ==> r == gruntBuildDirectory + "/bower.json"
  {
    BelowDirectory(gruntBuildDirectory, "bower.json");
    WithTrailing(gruntBuildDirectory, "/") + "bower.json"
  }

  /** The directory the zips go to: "bower-maven-repo/" inside the grunt
      build directory, one '/' after it. */
  function RepositoryDirectory(gruntBuildDirectory: string): (r: string)
    ensures StartsWith(r, gruntBuildDirectory) && EndsWith(r, BowerMavenFolder)
    ensures EndsWith(gruntBuildDirectory, "/") ==> r == gruntBuildDirectory + BowerMavenFolder
    ensures !EndsWith(gruntBuildDirectory, "/") ==> r == gruntBuildDirectory + "/" + BowerMavenFolder
  {
    BelowDirectory(gruntBuildDirectory, BowerMavenFolder);
    WithTrailing(gruntBuildDirectory, "/") + BowerMavenFolder
  }

  /** A trailing '/' already present is not doubled. */
  lemma RepositoryDirectoryOnce(gruntBuildDirectory: string)
    ensures RepositoryDirectory(WithTrailing(gruntBuildDirectory, "/")) == RepositoryDirectory(gruntBuildDirectory)
    ensures BowerJsonPath(WithTrailing(gruntBuildDirectory, "/")) == BowerJsonPath(gruntBuildDirectory)
  {
    WithTrailingIdempotent(gruntBuildDirectory, "/");
  }

  // --------------------------------------------------------- registration

  /** A dependency artifact: `entries` lists the names inside its jar, None
      when the artifact has no file. */
  datatype Artifact = Artifact(
    groupId: string, artifactId: string, fileName: string, entries: Option<seq<string>>, snapshot: bool)

  datatype Settings = Settings(
    jarSourceDirectory: string, gruntBuildDirectory: string, separator: string, now: string)

  /** Binds `key` to the zip path. */
  function Put(deps: JsonObject, key: string, zip: string): JsonObject {
    deps[key := JString(zip)]
  }

  /** `extractBower`: the jar contributes one dependency when at least one
      of its entries lies below the jar source directory. */
  function ExtractBower(deps: JsonObject, a: Artifact, s: Settings): (r: JsonObject)
    requires a.entries.Some?
    ensures var key := BowerDependencyKey(a.groupId, a.artifactId);
      && ((exists e :: e in a.entries.value && PathBelow(e, s.jarSourceDirectory).Some?) ==>
            r == Put(deps, key, BowerZipFileName(RepositoryDirectory(s.gruntBuildDirectory), s.separator,
                                                 a.fileName, SnapshotSuffix(a.snapshot, s.now))))
      && ((forall e :: e in a.entries.value ==> PathBelow(e, s.jarSourceDirectory).None?) ==> r == deps)
  {
    if exists e :: e in a.entries.value && PathBelow(e, s.jarSourceDirectory).Some? then
      Put(deps, BowerDependencyKey(a.groupId, a.artifactId),
          BowerZipFileName(RepositoryDirectory(s.gruntBuildDirectory), s.separator, a.fileName,
                           SnapshotSuffix(a.snapshot, s.now)))
    else deps
  }

  /** Puts each binding in turn, so a later binding of a key wins. The
      keys afterwards are those already present and those the bindings
      name; a key no binding names keeps its value. */
  function PutAll(deps: JsonObject, bindings: seq<(string, string)>): (r: JsonObject)
    ensures forall k :: k in r <==> k in deps || Binds(bindings, k)
    ensures forall k :: k in deps && !Binds(bindings, k) ==> r[k] == deps[k]
    decreases |bindings|
  {
    if bindings == [] then deps
    else
      BindsCons(bindings);
      PutAll(Put(deps, bindings[0].0, bindings[0].1), bindings[1..])
  }

  /** Some binding names `k`. */
  predicate Binds(bindings: seq<(string, string)>, k: string) {
    exists i :: 0 <= i < |bindings| && bindings[i].0 == k
  }

  /** The keys the bindings name: the first one's and those of the rest. */
  lemma BindsCons(bindings: seq<(string, string)>)
    requires bindings != []
    ensures forall k :: Binds(bindings, k) <==> k == bindings[0].0 || Binds(bindings[1..], k)
  {
    var rest := bindings[1..];
    forall k
      ensures Binds(bindings, k) <==> k == bindings[0].0 || Binds(rest, k)
    {
      if exists i :: 0 <= i < |bindings| && bindings[i].0 == k {
        var i :| 0 <= i < |bindings| && bindings[i].0 == k;
        if i > 0 {
          assert rest[i - 1] == bindings[i];
        }
      }
      if exists i :: 0 <= i < |rest| && rest[i].0 == k {
        var i :| 0 <= i < |rest| && rest[i].0 == k;
        assert bindings[i + 1] == rest[i];
      }
    }
  }

  /** The last binding of a key decides its value. */
  lemma {:induction false} PutAllLastWins(deps: JsonObject, bindings: seq<(string, string)>, i: int)
    requires 0 <= i < |bindings|
    requires forall j :: i < j < |bindings| ==> bindings[j].0 != bindings[i].0
    ensures bindings[i].0 in PutAll(deps, bindings)
    ensures PutAll(deps, bindings)[bindings[i].0] == JString(bindings[i].1)
    decreases |bindings|
  {
    var rest := bindings[1..];
    var next := Put(deps, bindings[0].0, bindings[0].1);
    if i == 0 {
      assert !Binds(rest, bindings[0].0) by {
        forall j | 0 <= j < |rest| ensures rest[j].0 != bindings[0].0 {
          assert rest[j] == bindings[j + 1];
        }
      }
    } else {
      assert rest[i - 1] == bindings[i];
      forall j | i - 1 < j < |rest| ensures rest[j].0 != rest[i - 1].0 {
        assert rest[j] == bindings[j + 1];
      }
      PutAllLastWins(next, rest, i - 1);
    }
  }

  /** A webjar component's dependency binding: the key from the jar's file
      name and the component's name, bound to the component's zip. */
  function ComponentBinding(jarFileName: string, outputDir: string, fullname: string): (b: (string, string))
    requires '/' in fullname
    ensures b.0 == WebjarDependencyKey(jarFileName, NewWebjarComponent(fullname, outputDir).name)
    ensures b.1 == NewWebjarComponent(fullname, outputDir).zipFileName
  {
    var c := NewWebjarComponent(fullname, outputDir);
    (WebjarDependencyKey(jarFileName, c.name), c.zipFileName)
  }

  predicate AllFullNames(order: seq<string>) {
    forall i :: 0 <= i < |order| ==> '/' in order[i]
  }

  /** The bindings of a webjar's components, in `order`. */
  function ComponentBindings(jarFileName: string, outputDir: string, order: seq<string>): (b: seq<(string, string)>)
    requires AllFullNames(order)
    ensures |b| == |order|
    ensures forall i :: 0 <= i < |order| ==> b[i] == ComponentBinding(jarFileName, outputDir, order[i])
  {
    seq(|order|, i requires 0 <= i < |order| => ComponentBinding(jarFileName, outputDir, order[i]))
  }

  /** `extractWebjar`: one dependency per component, put in the order the
      component map yields them (`order`, a listing of the components'
      full names). Every component's key is bound and no other key is
      added; a key no component names keeps its value; a component whose
      key no later component shares is bound to its own zip. */
  function ExtractWebjar(deps: JsonObject, jarFileName: string, outputDir: string, order: seq<string>): (r: JsonObject)
    requires AllFullNames(order)
    ensures var b := ComponentBindings(jarFileName, outputDir, order);
      && (forall k :: k in r <==> k in deps || Binds(b, k))
      && (forall k :: k in deps && !Binds(b, k) ==> r[k] == deps[k])
      && (forall i :: 0 <= i < |b| && (forall j :: i < j < |b| ==> b[j].0 != b[i].0) ==>
            b[i].0 in r && r[b[i].0] == JString(NewWebjarComponent(order[i], outputDir).zipFileName))
  {
    var b := ComponentBindings(jarFileName, outputDir, order);
    PutAllLastBindings(deps, b);
    PutAll(deps, b)
  }

  /** Every binding no later binding overrides decides its key's value. */
  lemma PutAllLastBindings(deps: JsonObject, bindings: seq<(string, string)>)
    ensures forall i :: 0 <= i < |bindings| && (forall j :: i < j < |bindings| ==> bindings[j].0 != bindings[i].0) ==>
      bindings[i].0 in PutAll(deps, bindings) && PutAll(deps, bindings)[bindings[i].0] == JString(bindings[i].1)
  {
    forall i | 0 <= i < |bindings| && (forall j :: i < j < |bindings| ==> bindings[j].0 != bindings[i].0)
      ensures bindings[i].0 in PutAll(deps, bindings) && PutAll(deps, bindings)[bindings[i].0] == JString(bindings[i].1)
    {
      PutAllLastWins(deps, bindings, i);
    }
  }

  /** A later `PutAll` of the same bindings overrides the earlier one key
      by key: the bindings alone decide what they put. */
  lemma {:induction false} PutAllOver(deps: JsonObject, extra: JsonObject, bindings: seq<(string, string)>)
    ensures PutAll(deps + extra, bindings) == deps + PutAll(extra, bindings)
    decreases |bindings|
  {
    if bindings != [] {
      var (k, v) := bindings[0];
      assert Put(deps + extra, k, v) == deps + Put(extra, k, v);
      PutAllOver(deps, Put(extra, k, v), bindings[1..]);
    }
  }

  /** Putting the same bindings twice is putting them once. */
  lemma PutAllTwice(deps: JsonObject, bindings: seq<(string, string)>)
    ensures PutAll(PutAll(deps, bindings), bindings) == PutAll(deps, bindings)
  {
    var added := PutAll(map[], bindings);
    PutAllOver(deps, map[], bindings);
    assert deps + map[] == deps;
    PutAllOver(deps + added, map[], bindings);
    assert (deps + added) + map[] == deps + added;
    assert (deps + added) + added == deps + added;
  }

  // ------------------------------------------------------------ components

  /** No element occurs twice. */
  predicate Distinct(names: seq<string>) {
    forall i, j :: 0 <= i < j < |names| ==> names[i] != names[j]
  }

  /** Some entry of `entries` is routed to the component `fullname`. */
  predicate RoutedTo(entries: seq<string>, jarSourceDirectory: string, fullname: string) {
    exists i :: 0 <= i < |entries| && WebjarEntry(entries[i], jarSourceDirectory).Some?
                 && WebjarEntry(entries[i], jarSourceDirectory).value.0 == fullname
  }

  lemma OneSlashIsSlash(s: string)
    requires SlashCount(s) == 1
    ensures '/' in s
  {
    assert '/' in multiset(s);
  }

  /** The components of a webjar in the order their first entries come:
      the order in which `extractWebjar` creates them. `seen` holds the
      components already met. */
  function NewComponents(entries: seq<string>, jarSourceDirectory: string, seen: seq<string>): (r: seq<string>)
    ensures Distinct(seen) ==> Distinct(r)
    ensures AllFullNames(seen) ==> AllFullNames(r)
    ensures forall x :: x in r <==> x in seen || RoutedTo(entries, jarSourceDirectory, x)
    decreases |entries|
  {
    if entries == [] then seen
    else
      var e := WebjarEntry(entries[0], jarSourceDirectory);
      var seen' := if e.Some? && e.value.0 !in seen then seen + [e.value.0] else seen;
      assert e.Some? ==> '/' in e.value.0 by {
        if e.Some? { OneSlashIsSlash(e.value.0); }
      }
      RoutedToCons(entries, jarSourceDirectory);
      NewComponents(entries[1..], jarSourceDirectory, seen')
  }

  /** The components the entries are routed to: the first entry's, and
      those of the rest. */
  lemma RoutedToCons(entries: seq<string>, jarSourceDirectory: string)
    requires entries != []
    ensures var e := WebjarEntry(entries[0], jarSourceDirectory);
      forall x :: RoutedTo(entries, jarSourceDirectory, x) <==>
        (e.Some? && e.value.0 == x) || RoutedTo(entries[1..], jarSourceDirectory, x)
  {
    forall x ensures RoutedTo(entries, jarSourceDirectory, x) ==>
      (WebjarEntry(entries[0], jarSourceDirectory).Some? && WebjarEntry(entries[0], jarSourceDirectory).value.0 == x)
      || RoutedTo(entries[1..], jarSourceDirectory, x)
    {
      if RoutedTo(entries, jarSourceDirectory, x) {
        var i :| 0 <= i < |entries| && WebjarEntry(entries[i], jarSourceDirectory).Some?
                 && WebjarEntry(entries[i], jarSourceDirectory).value.0 == x;
        if i > 0 { assert entries[i] == entries[1..][i - 1]; }
      }
    }
    forall x | RoutedTo(entries[1..], jarSourceDirectory, x)
      ensures RoutedTo(entries, jarSourceDirectory, x)
    {
      var i :| 0 <= i < |entries[1..]| && WebjarEntry(entries[1..][i], jarSourceDirectory).Some?
               && WebjarEntry(entries[1..][i], jarSourceDirectory).value.0 == x;
      assert entries[1..][i] == entries[i + 1];
    }
  }

  /** The components of a webjar, each once, in order of first entry. */
  function ComponentsInOrder(entries: seq<string>, jarSourceDirectory: string): (r: seq<string>)
    ensures Distinct(r) && AllFullNames(r)
    ensures forall x :: x in r <==> RoutedTo(entries, jarSourceDirectory, x)
  {
    NewComponents(entries, jarSourceDirectory, [])
  }

  // -------------------------------------------------------- dependency walk

  /** A node of the resolved dependency graph. */
  datatype DependencyNode = DependencyNode(artifact: Option<Artifact>, children: seq<DependencyNode>)

  /** The repository directory a handled artifact's zips go to:
      `gruntBuildDirectory` already carries its trailing '/'. */
  function ZipDirectory(s: Settings): string {
    RepositoryDirectory(s.gruntBuildDirectory)
  }

  /** The bindings an artifact contributes: none without a file; otherwise
      one per webjar component in webjar mode, and at most one for the
      whole jar outside it. */
  function ArtifactBindings(artifact: Option<Artifact>, s: Settings): seq<(string, string)> {
    if artifact.None? || artifact.value.entries.None? then []
    else
      var a := artifact.value;
      var entries := a.entries.value;
      if WebJarMode(s.jarSourceDirectory) then
        ComponentBindings(a.fileName, WithTrailing(ZipDirectory(s), s.separator), ComponentsInOrder(entries, s.jarSourceDirectory))
      else if exists e :: e in entries && PathBelow(e, s.jarSourceDirectory).Some? then
        [(BowerDependencyKey(a.groupId, a.artifactId),
          BowerZipFileName(ZipDirectory(s), s.separator, a.fileName, SnapshotSuffix(a.snapshot, s.now)))]
      else []
  }

  /** The loop body of `handleBowerDependency` for one child: the artifact
      is extracted when it has a file. */
  function HandleArtifact(deps: JsonObject, artifact: Option<Artifact>, s: Settings): (r: JsonObject)
    ensures r == PutAll(deps, ArtifactBindings(artifact, s))
  {
    if artifact.None? || artifact.value.entries.None? then deps
    else if WebJarMode(s.jarSourceDirectory) then
      var a := artifact.value;
      ExtractWebjar(deps, a.fileName, WithTrailing(ZipDirectory(s), s.separator),
                    ComponentsInOrder(a.entries.value, s.jarSourceDirectory))
    else
      ExtractBowerIsPutAll(deps, artifact.value, s);
      ExtractBower(deps, artifact.value, s)
  }

  /** Outside webjar mode the jar's one binding is put, if any. */
  lemma ExtractBowerIsPutAll(deps: JsonObject, a: Artifact, s: Settings)
    requires a.entries.Some? && !WebJarMode(s.jarSourceDirectory)
    ensures ExtractBower(deps, a, s) == PutAll(deps, ArtifactBindings(Some(a), s))
  {
    var b := ArtifactBindings(Some(a), s);
    if b != [] { assert b[1..] == []; }
  }

  /** `handleBowerDependency(node)`: every child is handled, then its own
      children, depth first. The node's own artifact is not handled. The
      walk puts exactly the bindings of the subtree, in preorder. */
  function HandleBowerDependency(deps: JsonObject, node: DependencyNode, s: Settings): (r: JsonObject)
    ensures r == PutAll(deps, TreeBindings(node, s))
    decreases node, |node.children| + 1
  {
    HandleChildren(deps, node, 0, s)
  }

  /** The loop of `handleBowerDependency` from the `i`-th child on: it
      puts the bindings of those children's subtrees. */
  function HandleChildren(deps: JsonObject, node: DependencyNode, i: nat, s: Settings): (r: JsonObject)
    requires i <= |node.children|
    ensures r == PutAll(deps, ChildrenBindings(node, i, s))
    decreases node, |node.children| - i
  {
    if i == |node.children| then deps
    else
      var child := node.children[i];
      var own := ArtifactBindings(child.artifact, s);
      var below := TreeBindings(child, s);
      PutAllAppend(deps, own, below);
      PutAllAppend(deps, own + below, ChildrenBindings(node, i + 1, s));
      HandleChildren(HandleBowerDependency(HandleArtifact(deps, child.artifact, s), child, s), node, i + 1, s)
  }

  /** The bindings of a subtree, in the order of the walk: each child's
      own, then those below it. */
  function TreeBindings(node: DependencyNode, s: Settings): seq<(string, string)>
    decreases node, |node.children| + 1
  {
    ChildrenBindings(node, 0, s)
  }

  function ChildrenBindings(node: DependencyNode, i: nat, s: Settings): seq<(string, string)>
    requires i <= |node.children|
    decreases node, |node.children| - i
  {
    if i == |node.children| then []
    else
      var child := node.children[i];
      ArtifactBindings(child.artifact, s) + TreeBindings(child, s) + ChildrenBindings(node, i + 1, s)
  }

  lemma {:induction false} PutAllAppend(deps: JsonObject, a: seq<(string, string)>, b: seq<(string, string)>)
    ensures PutAll(deps, a + b) == PutAll(PutAll(deps, a), b)
    decreases |a|
  {
    if a != [] {
      assert (a + b)[1..] == a[1..] + b;
      PutAllAppend(Put(deps, a[0].0, a[0].1), a[1..], b);
    } else {
      assert a + b == b;
    }
  }

  /** Walking the same graph again changes nothing more. */
  lemma WalkTwice(deps: JsonObject, node: DependencyNode, s: Settings)
    ensures HandleBowerDependency(HandleBowerDependency(deps, node, s), node, s) == HandleBowerDependency(deps, node, s)
  {
    PutAllTwice(deps, TreeBindings(node, s));
  }

  // ---------------------------------------------------------- the goal

  /** The exceptions that escape `executeInternal`. */
  datatype BowerError = NullPointer | ClassCast

  /** What `dependencyGraphBuilder` yields: no builder injected, a build
      that throws, or the root of the resolved graph. */
  datatype Graph = NoGraphBuilder | GraphBuildFails | Graph(root: DependencyNode)

  /** Gson's reading of bower.json into a map. A missing file or a document
      that is not an object is caught and leaves the empty map; a document
      Gson reads as null (an empty file) yields None, the null map. */
  function LoadBowerJson(files: map<string, string>, filename: string, parse: string -> Option<Json>): (r: Option<JsonObject>)
    ensures filename !in files ==> r == Some(map[])
    ensures r.None? <==> filename in files && parse(files[filename]) == Some(JNull)
  {
    if filename !in files then Some(map[])
    else
      match parse(files[filename])
      case Some(JObject(m)) => Some(m)
      case Some(JNull) => None
      case _ => Some(map[])
  }

  /** A "dependencies" entry the cast to a map rejects. */
  predicate BadDependencies(m: JsonObject) {
    "dependencies" in m && !m["dependencies"].JObject? && !m["dependencies"].JNull?
  }

  /** A "dependencies" entry that is JSON null: the dependency map is null. */
  predicate NullDependencies(m: JsonObject) {
    "dependencies" in m && m["dependencies"].JNull?
  }

  /** The declared dependencies, empty when there are none. */
  function DeclaredDependencies(m: JsonObject): JsonObject {
    if "dependencies" in m && m["dependencies"].JObject? then m["dependencies"].fields else map[]
  }

  /** What `executeInternal` does to the map read from bower.json: the
      dependency map is cast, the graph is walked, and the map to write is
      returned; None when the goal returns before writing because no graph
      builder was injected. */
  function Register(m: JsonObject, graph: Graph, settings: Settings): (r: Result<Option<JsonObject>, BowerError>)
    ensures r.Failure? ==> "dependencies" in m
    ensures r == Failure(ClassCast) <==> BadDependencies(m)
    ensures r == Failure(NullPointer) <==>
      NullDependencies(m) && graph.Graph? && HandleBowerDependency(map[], graph.root, settings) != map[]
    ensures r.Failure? ==> r == Failure(ClassCast) || r == Failure(NullPointer)
    ensures r == Success(None) <==> !BadDependencies(m) && graph.NoGraphBuilder?
    ensures r.Success? && r.value.Some? ==>
      && "dependencies" in r.value.value && !BadDependencies(r.value.value)
      && forall k :: k in m && k != "dependencies" ==> k in r.value.value && r.value.value[k] == m[k]
  {
    if BadDependencies(m) then Failure(ClassCast)
    else if graph.NoGraphBuilder? then Success(None)
    else
      var before := DeclaredDependencies(m);
      var after := if graph.Graph? then HandleBowerDependency(before, graph.root, settings) else before;
      if NullDependencies(m) && after != before then Failure(NullPointer)
      else Success(Some(if NullDependencies(m) then m else m["dependencies" := JObject(after)]))
  }

  /** Registering again into the map a registration wrote changes nothing. */
  lemma RegisterTwice(m: JsonObject, graph: Graph, settings: Settings)
    requires Register(m, graph, settings).Success? && Register(m, graph, settings).value.Some?
    ensures var written := Register(m, graph, settings).value.value;
      Register(written, graph, settings) == Success(Some(written))
  {
    var written := Register(m, graph, settings).value.value;
    var before := DeclaredDependencies(m);
    var after := if graph.Graph? then HandleBowerDependency(before, graph.root, settings) else before;
    assert !BadDependencies(m) && !graph.NoGraphBuilder?;
    if NullDependencies(m) {
      assert written == m;
    } else {
      assert written == m["dependencies" := JObject(after)];
      assert !BadDependencies(written) && !NullDependencies(written);
      assert DeclaredDependencies(written) == after;
      var again := if graph.Graph? then HandleBowerDependency(after, graph.root, settings) else after;
      if graph.Graph? {
        WalkTwice(before, graph.root, settings);
      }
      assert again == after;
      assert written["dependencies" := JObject(again)] == written;
    }
  }

  /** `executeInternal` over the file system `files`. `projectPresent` is
      false when the project is null; `now` in `s` stands for the clock;
      `writeFails` stands for an `IOException` on writing, which is
      caught. */
  function ExecuteInternal(files: map<string, string>, projectPresent: bool, graph: Graph, s: Settings,
                           parse: string -> Option<Json>, render: Json -> string, writeFails: bool)
    : (r: Result<map<string, string>, BowerError>)
    ensures !projectPresent ==> r == Success(files)
    ensures graph.NoGraphBuilder? && r.Success? ==> r.value == files
    ensures r.Failure? ==> projectPresent && BowerJsonPath(s.gruntBuildDirectory) in files
    ensures var filename := BowerJsonPath(s.gruntBuildDirectory);
      projectPresent && filename in files && parse(files[filename]) == Some(JNull) ==> r == Failure(NullPointer)
    ensures var loaded := LoadBowerJson(files, BowerJsonPath(s.gruntBuildDirectory), parse);
      projectPresent && loaded.Some? ==>
        && (BadDependencies(loaded.value) ==> r == Failure(ClassCast))
        && ((NullDependencies(loaded.value) && graph.Graph?
             && HandleBowerDependency(map[], graph.root, Trailing(s)) != map[]) ==> r == Failure(NullPointer))
    ensures var loaded := LoadBowerJson(files, BowerJsonPath(s.gruntBuildDirectory), parse);
      r.Failure? ==>
        && projectPresent
        && (|| loaded.None?
            || BadDependencies(loaded.value)
            || (NullDependencies(loaded.value) && graph.Graph?
                && HandleBowerDependency(map[], graph.root, Trailing(s)) != map[]))
    ensures r.Success? ==> r.value.Keys <= files.Keys + {BowerJsonPath(s.gruntBuildDirectory)}
    ensures r.Success? ==> forall p :: p in files && p != BowerJsonPath(s.gruntBuildDirectory) ==>
                                       p in r.value && r.value[p] == files[p]
  {
    if !projectPresent then Success(files)
    else
      var filename := BowerJsonPath(s.gruntBuildDirectory);
      match LoadBowerJson(files, filename, parse)
      case None => Failure(NullPointer)
      case Some(m) =>
        match Register(m, graph, Trailing(s))
        case Failure(e) => Failure(e)
        case Success(None) => Success(files)
        case Success(Some(written)) =>
          if writeFails then Success(files) else Success(files[filename := render(JObject(written))])
  }

  // ------------------------------------------------------- Gson printing

  /** What Gson reads back from the text it printed for `j`. Without
      `serializeNulls`, a member whose value is null is not printed, at any
      depth, while a null element of an array is. A number is read as a
      double: `asDouble` gives the literal of the double a literal denotes. */
  function Reprinted(j: Json, asDouble: string -> string): Json {
    match j
    case JObject(fields) => JObject(map k | k in fields && !fields[k].JNull? :: Reprinted(fields[k], asDouble))
    case JArray(items) => JArray(seq(|items|, i requires 0 <= i < |items| => Reprinted(items[i], asDouble)))
    case JNumber(literal) => JNumber(asDouble(literal))
    case _ => j
  }

  /** The members of an object after a print and a read: the null ones are
      gone and the others are reprinted. */
  function ReprintedFields(fields: JsonObject, asDouble: string -> string): (r: JsonObject)
    ensures forall k :: k in r <==> k in fields && !fields[k].JNull?
    ensures forall k :: k in r ==> r[k] == Reprinted(fields[k], asDouble)
  {
    Reprinted(JObject(fields), asDouble).fields
  }

  /** `parse` and `render` behave as Gson's reading and pretty printing:
      reading what was printed gives the reprinted document, and the text
      printed depends only on what will be read back. */
  ghost predicate GsonPrints(parse: string -> Option<Json>, render: Json -> string, asDouble: string -> string) {
    forall j :: parse(render(j)) == Some(Reprinted(j, asDouble)) && render(Reprinted(j, asDouble)) == render(j)
  }

  /** Reprinting keeps strings, so it commutes with putting bindings. */
  lemma {:induction false} ReprintedPutAll(deps: JsonObject, bindings: seq<(string, string)>, asDouble: string -> string)
    ensures ReprintedFields(PutAll(deps, bindings), asDouble) == PutAll(ReprintedFields(deps, asDouble), bindings)
    decreases |bindings|
  {
    if bindings != [] {
      var (k, v) := bindings[0];
      assert ReprintedFields(Put(deps, k, v), asDouble) == Put(ReprintedFields(deps, asDouble), k, v);
      ReprintedPutAll(Put(deps, k, v), bindings[1..], asDouble);
    }
  }

  /** bower.json declares a dependency map that is null. */
  predicate DeclaresNullDependencies(files: map<string, string>, filename: string, parse: string -> Option<Json>) {
    match LoadBowerJson(files, filename, parse)
    case Some(m) => NullDependencies(m)
    case None => false
  }

  /** The settings `executeInternal` walks with: the grunt build directory
      with its trailing '/'. */
  function Trailing(s: Settings): (r: Settings)
    ensures EndsWith(r.gruntBuildDirectory, "/")
    ensures r == s.(gruntBuildDirectory := r.gruntBuildDirectory)
  {
    s.(gruntBuildDirectory := WithTrailing(s.gruntBuildDirectory, "/"))
  }

  /** Registering again into what Gson reads back from a registration's
      map, when the dependency map was not null, changes nothing. */
  lemma RegisterReprintedTwice(m: JsonObject, graph: Graph, settings: Settings, asDouble: string -> string)
    requires !NullDependencies(m)
    requires Register(m, graph, settings).Success? && Register(m, graph, settings).value.Some?
    ensures var read := ReprintedFields(Register(m, graph, settings).value.value, asDouble);
      Register(read, graph, settings) == Success(Some(read))
  {
    var written := Register(m, graph, settings).value.value;
    var before := DeclaredDependencies(m);
    var after := if graph.Graph? then HandleBowerDependency(before, graph.root, settings) else before;
    assert written == m["dependencies" := JObject(after)];
    var read := ReprintedFields(written, asDouble);
    var again := if graph.Graph? then HandleBowerDependency(DeclaredDependencies(read), graph.root, settings)
                 else DeclaredDependencies(read);
    assert DeclaredDependencies(read) == ReprintedFields(after, asDouble);
    if graph.Graph? {
      WalkReprintedTwice(before, graph.root, settings, asDouble);
    }
    assert again == DeclaredDependencies(read);
    assert read["dependencies" := JObject(again)] == read;
  }

  /** Walking again over the reprinted result of a walk changes nothing. */
  lemma WalkReprintedTwice(deps: JsonObject, node: DependencyNode, s: Settings, asDouble: string -> string)
    ensures var read := ReprintedFields(HandleBowerDependency(deps, node, s), asDouble);
      HandleBowerDependency(read, node, s) == read
  {
    var b := TreeBindings(node, s);
    ReprintedPutAll(deps, b, asDouble);
    PutAllTwice(ReprintedFields(deps, asDouble), b);
  }

  /** A second run over the bower.json the first one wrote, with the same
      graph and the same clock, writes the same file again, unless the
      first run read a null dependency map. */
  lemma ExecuteInternalTwice(files: map<string, string>, projectPresent: bool, graph: Graph, s: Settings,
                             parse: string -> Option<Json>, render: Json -> string, asDouble: string -> string)
    requires GsonPrints(parse, render, asDouble)
    requires !DeclaresNullDependencies(files, BowerJsonPath(s.gruntBuildDirectory), parse)
    requires ExecuteInternal(files, projectPresent, graph, s, parse, render, false).Success?
    ensures var once := ExecuteInternal(files, projectPresent, graph, s, parse, render, false).value;
      ExecuteInternal(once, projectPresent, graph, s, parse, render, false) == Success(once)
  {
    var once := ExecuteInternal(files, projectPresent, graph, s, parse, render, false).value;
    if projectPresent && !graph.NoGraphBuilder? {
      var settings := Trailing(s);
      var filename := BowerJsonPath(s.gruntBuildDirectory);
      var m := LoadBowerJson(files, filename, parse).value;
      var written := Register(m, graph, settings).value.value;
      var read := ReprintedFields(written, asDouble);
      assert once == files[filename := render(JObject(written))];
      assert LoadBowerJson(once, filename, parse) == Some(read) by {
        assert parse(once[filename]) == Some(Reprinted(JObject(written), asDouble));
      }
      RegisterReprintedTwice(m, graph, settings, asDouble);
      assert render(JObject(read)) == render(JObject(written)) by {
        assert JObject(read) == Reprinted(JObject(written), asDouble);
      }
      assert once[filename := render(JObject(written))] == once;
    }
  }

  /** A null dependency map is printed as no map at all, so the second run
      adds an empty one: the goal is not idempotent on such a bower.json. */
  lemma NullDependenciesRewritten(files: map<string, string>, graph: Graph, s: Settings,
                                  parse: string -> Option<Json>, render: Json -> string, asDouble: string -> string)
    requires GsonPrints(parse, render, asDouble)
    requires DeclaresNullDependencies(files, BowerJsonPath(s.gruntBuildDirectory), parse)
    requires !graph.NoGraphBuilder?
    requires ExecuteInternal(files, true, graph, s, parse, render, false).Success?
    ensures var once := ExecuteInternal(files, true, graph, s, parse, render, false).value;
      ExecuteInternal(once, true, graph, s, parse, render, false) != Success(once)
  {
    var once := ExecuteInternal(files, true, graph, s, parse, render, false).value;
    var settings := Trailing(s);
    var filename := BowerJsonPath(s.gruntBuildDirectory);
    var m := LoadBowerJson(files, filename, parse).value;
    assert Register(m, graph, settings) == Success(Some(m));
    var read := ReprintedFields(m, asDouble);
    assert parse(once[filename]) == Some(Reprinted(JObject(m), asDouble));
    assert LoadBowerJson(once, filename, parse) == Some(read);
    assert "dependencies" !in read;
    var again := if graph.Graph? then HandleBowerDependency(map[], graph.root, settings) else map[];
    var rewritten := read["dependencies" := JObject(again)];
    assert Register(read, graph, settings) == Success(Some(rewritten));
    var twice := once[filename := render(JObject(rewritten))];
    assert ExecuteInternal(once, true, graph, s, parse, render, false) == Success(twice);
    assert parse(render(JObject(rewritten))) != parse(render(JObject(m))) by {
      assert "dependencies" in Reprinted(JObject(rewritten), asDouble).fields;
    }
    assert twice[filename] != once[filename];
  }

  /** After a run that writes bower.json, the file reads back as the old
      top-level entries, reprinted and without the null ones, and the
      dependency map: the declared dependencies with the walk's bindings
      put over them. A null dependency map survives only when the walk
      binds nothing, and is then not printed. */
  lemma ExecuteInternalRegisters(files: map<string, string>, root: DependencyNode, s: Settings,
                                 parse: string -> Option<Json>, render: Json -> string, asDouble: string -> string)
    requires GsonPrints(parse, render, asDouble)
    requires ExecuteInternal(files, true, Graph(root), s, parse, render, false).Success?
    ensures var filename := BowerJsonPath(s.gruntBuildDirectory);
      var m := LoadBowerJson(files, filename, parse).value;
      var bindings := TreeBindings(root, Trailing(s));
      var once := ExecuteInternal(files, true, Graph(root), s, parse, render, false).value;
      && filename in once
      && parse(once[filename]).Some? && parse(once[filename]).value.JObject?
      && var written := parse(once[filename]).value.fields;
      && (forall k :: k in m && k != "dependencies" ==> (k in written <==> !m[k].JNull?))
      && (forall k :: k in written && k != "dependencies" ==> k in m && written[k] == Reprinted(m[k], asDouble))
      && (!NullDependencies(m) ==>
            && "dependencies" in written
            && written["dependencies"] == JObject(PutAll(ReprintedFields(DeclaredDependencies(m), asDouble), bindings)))
      && (NullDependencies(m) ==> "dependencies" !in written && bindings == [])
  {
    var settings := Trailing(s);
    var filename := BowerJsonPath(s.gruntBuildDirectory);
    var m := LoadBowerJson(files, filename, parse).value;
    var before := DeclaredDependencies(m);
    var bindings := TreeBindings(root, settings);
    var written := Register(m, Graph(root), settings).value.value;
    var once := ExecuteInternal(files, true, Graph(root), s, parse, render, false).value;
    assert parse(once[filename]) == Some(Reprinted(JObject(written), asDouble));
    if NullDependencies(m) {
      assert written == m;
      if bindings != [] {
        assert Binds(bindings, bindings[0].0);
      }
    } else {
      assert written == m["dependencies" := JObject(PutAll(before, bindings))];
      ReprintedPutAll(before, bindings, asDouble);
    }
  }

  /** The `bower-maven` goal as the plugin runs it on `files`. */
  function Goal(projectPresent: bool, graph: Graph, s: Settings, parse: string -> Option<Json>,
                render: Json -> string, writeFails: bool): map<string, string> -> Result<map<string, string>, BowerError>
  {
    files => ExecuteInternal(files, projectPresent, graph, s, parse, render, writeFails)
  }

  /** Running the enabled goal any number of times leaves bower.json as the
      first run wrote it, unless that run read a null dependency map. */
  lemma EnabledGoalSettles(n: nat, files: map<string, string>, projectPresent: bool, graph: Graph, s: Settings,
                           parse: string -> Option<Json>, render: Json -> string, asDouble: string -> string)
    requires n >= 1
    requires GsonPrints(parse, render, asDouble)
    requires !DeclaresNullDependencies(files, BowerJsonPath(s.gruntBuildDirectory), parse)
    requires ExecuteInternal(files, projectPresent, graph, s, parse, render, false).Success?
    ensures Repeat(n, false, files, Goal(projectPresent, graph, s, parse, render, false))
         == ExecuteInternal(files, projectPresent, graph, s, parse, render, false)
  {
    var once := ExecuteInternal(files, projectPresent, graph, s, parse, render, false).value;
    ExecuteInternalTwice(files, projectPresent, graph, s, parse, render, asDouble);
    RepeatAtFixpoint(n - 1, false, once, Goal(projectPresent, graph, s, parse, render, false));
  }
}
