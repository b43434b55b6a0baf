/** The `update-package-json` goal: creates package.json and Gruntfile.js
    in the js source directory when they are missing and synchronises
    package.json with the project model. It keeps its own copy of the
    update rules, which differs from the factory's only in where the issue
    tracker url goes. */
module UpdatePackageJsonMojo {
  import opened Wrappers
  import opened Strings
  import opened JsonModel
  import opened Filters
  import opened Resources
  import opened ResourceFactory
  import opened BaseMojo

  const DefaultGruntVersion: string := "0.4.2"

  // -------------------------------------------------------------- paths

  /** The directory the goal writes into, as the goal composes it: the
      source directory and the js source directory concatenated with no
      separator between them. */
  function TargetDirectoryAsWritten(d: Directories): (r: string)
    ensures StartsWith(r, d.sourceDirectory) && EndsWith(r, d.jsSourceDirectory)
    ensures |r| == |d.sourceDirectory| + |d.jsSourceDirectory|
  {
    var r := d.sourceDirectory + d.jsSourceDirectory;
    assert r[..|d.sourceDirectory|] == d.sourceDirectory;
    assert r[|r| - |d.jsSourceDirectory|..] == d.jsSourceDirectory;
    r
  }

  /** The directory composed as evidently intended: the relative js source
      directory, as the rest of the plugin builds it. */
  function TargetDirectory(d: Directories, separator: string): string {
    RelativeJsSourceDirectory(d, separator)
  }

  /** `sourceDirectory + jsSourceDirectory + separator + name`. */
  function TargetFile(directory: string, separator: string, name: string): string {
    directory + separator + name
  }

  /** With the default directories the goal writes into
      "src/main/webappstatic", not into the js source directory
      "src/main/webapp/static" that every other goal uses. */
  lemma DefaultTargetAsWritten(basedir: string, gruntBuildDirectory: string)
    ensures var d := Directories(basedir, DefaultSourceDirectory, DefaultJsSourceDirectory, gruntBuildDirectory);
      && TargetDirectoryAsWritten(d) == "src/main/webappstatic"
      && TargetDirectory(d, "/") == "src/main/webapp/static"
      && TargetDirectoryAsWritten(d) != RelativeJsSourceDirectory(d, "/")
  {
    var d := Directories(basedir, DefaultSourceDirectory, DefaultJsSourceDirectory, gruntBuildDirectory);
    DefaultRelativeJsSourceDirectory(basedir, gruntBuildDirectory);
    assert |TargetDirectoryAsWritten(d)| != |RelativeJsSourceDirectory(d, "/")|;
  }

  /** The corrected target is the file the factory's `createOrUpdate*`
      would address for the same js source directory. */
  lemma TargetAgreesWithFactory(d: Directories, separator: string, name: string)
    requires !EndsWith(TargetDirectory(d, separator), separator)
    ensures TargetFile(TargetDirectory(d, separator), separator, name)
         == GenerateTargetFileName(TargetDirectory(d, separator), separator, name)
  {
  }

  /** The two names the goal writes never collide: they have the same length
      but differ in their first letter. */
  lemma TargetsDiffer(directory: string, separator: string)
    ensures TargetFile(directory, separator, PackageJsonResourceName)
         != TargetFile(directory, separator, GruntFileResourceName)
  {
    var k := |directory + separator|;
    assert TargetFile(directory, separator, PackageJsonResourceName)[k] == 'p';
    assert TargetFile(directory, separator, GruntFileResourceName)[k] == 'G';
  }

  // ------------------------------------------------------- update rules

  /** The issue tracker url, stored under the flat key "bugs.url" and only
      when both the issue management section and its url are present. */
  function BugsUrlValue(p: Project): (r: Option<Json>)
    ensures r.Some? <==> p.issueManagement.Some? && p.issueManagement.value.url.Some?
    ensures r.Some? ==> r.value == JString(p.issueManagement.value.url.value)
  {
    match p.issueManagement
    case None => None
    case Some(issues) => OptText(issues.url)
  }

  /** The fields the goal's `updatePackageJson` sets, in order. They are the
      factory's, except that the issue url goes to "bugs.url" instead of a
      nested "bugs" object. */
  function MojoPackageFields(p: Project): (r: seq<Field>)
    ensures DistinctKeys(r)
    ensures KeyList(r) == ["version", "homepage", "description", "author", "contributors", "repository", "bugs.url", "license"]
  {
    [("version", Some(JString(p.version))),
     ("homepage", OptText(p.url)),
     ("description", OptText(p.description)),
     ("author", AuthorValue(p)),
     ("contributors", PackageContributorsValue(p)),
     ("repository", RepositoryValue(p)),
     ("bugs.url", BugsUrlValue(p)),
     ("license", OptText(LicenseName(p)))]
  }

  /** The goal's `updatePackageJson` on the parsed root object; a malformed
      SCM connection throws, as in the factory. */
  function UpdatePackageJson(root: JsonObject, p: Project): (r: Result<JsonObject, FactoryError>)
    ensures r.Success? <==> ScmReadable(p)
    ensures r.Failure? ==> r.error == MalformedScmConnection(p.scm.value.connection.value)
    ensures r.Success? ==> FieldsSynced(root, r.value, MojoPackageFields(p))
  {
    if !ScmReadable(p) then
      Failure(RepositoryNode(p.scm.value).error)
    else
      ApplyFieldsSynced(root, MojoPackageFields(p));
      Success(ApplyFields(root, MojoPackageFields(p)))
  }

  /** A flat "bugs.url" key is written, never a nested "bugs" object: the
      goal leaves "bugs" as it found it. */
  lemma BugsUrlIsFlat(root: JsonObject, p: Project)
    requires ScmReadable(p)
    requires p.issueManagement.Some? && p.issueManagement.value.url.Some?
    ensures var m := UpdatePackageJson(root, p).value;
      && "bugs.url" in m && m["bugs.url"] == JString(p.issueManagement.value.url.value)
      && SameAt(root, m, "bugs")
  {
    var fields := MojoPackageFields(p);
    assert KeyList(fields)[6] == "bugs.url";
    assert Synced(root, UpdatePackageJson(root, p).value, fields[6].0, fields[6].1);
    assert "bugs" !in FieldKeys(fields) by {
      forall i | 0 <= i < |fields|
        ensures fields[i].0 != "bugs"
      {
        assert fields[i].0 == KeyList(fields)[i];
      }
    }
  }

  /** The goal and the factory write the same value under every key other
      than "bugs" and "bugs.url". */
  lemma AgreesWithFactoryExceptBugs(root: JsonObject, p: Project, key: string)
    requires ScmReadable(p)
    requires key != "bugs" && key != "bugs.url"
    ensures SameAt(UpdatePackageJson(root, p).value, ResourceFactory.UpdatePackageJson(root, p).value, key)
  {
    var mojo := MojoPackageFields(p);
    var factory := PackageFields(p);
    var a := UpdatePackageJson(root, p).value;
    var b := ResourceFactory.UpdatePackageJson(root, p).value;
    assert forall i :: 0 <= i < 8 && i != 6 ==> mojo[i] == factory[i];
    assert mojo[6].0 == "bugs.url" && factory[6].0 == "bugs";
    if i :| 0 <= i < 8 && mojo[i].0 == key {
      assert i != 6;
      assert Synced(root, a, key, mojo[i].1);
      assert Synced(root, b, key, factory[i].1);
    } else {
      assert key !in FieldKeys(mojo);
      assert key !in FieldKeys(factory) by {
        forall j | 0 <= j < 8
          ensures factory[j].0 != key
        {
          if j != 6 {
            assert factory[j] == mojo[j];
          }
        }
      }
    }
  }

  /** Synchronising twice is synchronising once. */
  lemma UpdatePackageJsonIdempotent(root: JsonObject, p: Project)
    requires ScmReadable(p)
    ensures UpdatePackageJson(UpdatePackageJson(root, p).value, p) == UpdatePackageJson(root, p)
  {
    var once := UpdatePackageJson(root, p).value;
    FieldsSyncedTwice(root, once, UpdatePackageJson(once, p).value, MojoPackageFields(p));
  }

  function MojoUpdate(p: Project): JsonObject -> Result<JsonObject, FactoryError> {
    root => UpdatePackageJson(root, p)
  }

  // ------------------------------------------------------------ execute

  /** The goal's settings and the environment it reads: the classpath
      templates (None when missing), whether writes fail, and the JSON
      parser and printer. */
  datatype Environment = Environment(
    packageTemplate: Option<string>,
    gruntfileTemplate: Option<string>,
    writeFails: bool,
    parse: string -> Option<Json>,
    render: Json -> string)

  /** `execute()` writing into `directory`, for any update of the root
      object: package.json is created from the template when missing and
      then always synchronised; Gruntfile.js is created when missing and
      never touched otherwise. */
  function CreateAndSync(files: FileMap, directory: string, separator: string, template: Resource,
                         order: seq<Filter>, env: Environment,
                         update: JsonObject -> Result<JsonObject, FactoryError>)
    : (r: Result<FileMap, FactoryError>)
    requires IsIterationOrder(template, order)
    ensures var packageJson := TargetFile(directory, separator, PackageJsonResourceName);
      var gruntfile := TargetFile(directory, separator, GruntFileResourceName);
      && (r.Success? ==> r.value.Keys == files.Keys + {packageJson, gruntfile})
      && (r.Success? ==> forall path :: path in files && path != packageJson && path != gruntfile ==> r.value[path] == files[path])
      && (r.Success? && gruntfile in files ==> r.value[gruntfile] == files[gruntfile])
      && (r.Success? && gruntfile !in files ==> env.gruntfileTemplate.Some? && r.value[gruntfile] == env.gruntfileTemplate.value)
    ensures var packageJson := TargetFile(directory, separator, PackageJsonResourceName);
      var gruntfile := TargetFile(directory, separator, GruntFileResourceName);
      var root := RootObject(TextToUpdate(files, packageJson, template, order, env.packageTemplate), env.parse);
      && (r.Success? <==>
            && !env.writeFails && root.Some? && update(root.value).Success?
            && (gruntfile in files || env.gruntfileTemplate.Some?))
      && (r.Success? ==> r.value[packageJson] == env.render(JObject(update(root.value).value)))
  {
    var packageJson := TargetFile(directory, separator, PackageJsonResourceName);
    var gruntfile := TargetFile(directory, separator, GruntFileResourceName);
    TargetsDiffer(directory, separator);
    CreateOrUpdateFrame(files, packageJson, template, order, env.packageTemplate, env.writeFails,
                        env.parse, env.render, update);
    var created := CreateOrUpdate(files, packageJson, template, order, env.packageTemplate,
                                  env.writeFails, env.parse, env.render, update);
    if created.Failure? then Failure(created.error)
    else
      var synced := created.value;
      assert gruntfile in synced <==> gruntfile in files;
      assert gruntfile in files ==> synced[gruntfile] == files[gruntfile];
      if gruntfile in synced then Success(synced)
      else CreateGruntfile(synced, gruntfile, env.gruntfileTemplate, env.writeFails)
  }

  /** An existing Gruntfile.js is never re-created: its template plays no
      part, so the goal does not fail for want of it. */
  lemma ExistingGruntfileIgnoresTemplate(files: FileMap, directory: string, separator: string, template: Resource,
                                         order: seq<Filter>, env: Environment, text: Option<string>,
                                         update: JsonObject -> Result<JsonObject, FactoryError>)
    requires IsIterationOrder(template, order)
    requires TargetFile(directory, separator, GruntFileResourceName) in files
    ensures CreateAndSync(files, directory, separator, template, order, env, update)
         == CreateAndSync(files, directory, separator, template, order, env.(gruntfileTemplate := text), update)
  {
  }

  /** The goal's `execute()` writing into `directory`: only package.json
      and Gruntfile.js there are written, both exist afterwards, and an
      existing Gruntfile.js is kept. */
  function ExecuteIn(files: FileMap, directory: string, separator: string, gruntVersion: string,
                     p: Project, order: seq<Filter>, env: Environment)
    : (r: Result<FileMap, FactoryError>)
    requires IsIterationOrder(PackageJsonTemplate(p, gruntVersion), order)
    ensures Written(files, r, directory, separator, env)
    ensures Synchronised(files, r, directory, separator, gruntVersion, p, order, env)
  {
    CreateAndSync(files, directory, separator, PackageJsonTemplate(p, gruntVersion), order, env, MojoUpdate(p))
  }

  /** A second run leaves the files as the first run did, provided reading
      back what was written gives the same tree and the update is
      idempotent. */
  lemma CreateAndSyncIdempotent(files: FileMap, directory: string, separator: string, template: Resource,
                                order: seq<Filter>, env: Environment,
                                update: JsonObject -> Result<JsonObject, FactoryError>)
    requires IsIterationOrder(template, order)
    requires forall j :: env.parse(env.render(j)) == Some(j)
    requires forall m :: update(m).Success? ==> update(update(m).value) == update(m)
    requires !env.writeFails
    requires CreateAndSync(files, directory, separator, template, order, env, update).Success?
    ensures var once := CreateAndSync(files, directory, separator, template, order, env, update).value;
      CreateAndSync(once, directory, separator, template, order, env, update) == Success(once)
  {
    var packageJson := TargetFile(directory, separator, PackageJsonResourceName);
    var gruntfile := TargetFile(directory, separator, GruntFileResourceName);
    TargetsDiffer(directory, separator);
    var synced := CreateOrUpdate(files, packageJson, template, order, env.packageTemplate, false,
                                 env.parse, env.render, update).value;
    CreateOrUpdateIdempotent(files, packageJson, template, order, env.packageTemplate, env.parse, env.render, update);
    CreateOrUpdateFrame(files, packageJson, template, order, env.packageTemplate, false, env.parse, env.render, update);
    assert packageJson in synced;
    var once := CreateAndSync(files, directory, separator, template, order, env, update).value;
    if gruntfile in synced {
      assert once == synced;
    } else {
      assert once == synced[gruntfile := env.gruntfileTemplate.value];
      assert UpdateFile(synced, packageJson, env.parse, env.render, false, update) == Success(synced);
      assert once[packageJson] == synced[packageJson];
      var root := env.parse(synced[packageJson]).value.fields;
      var written := env.render(JObject(update(root).value));
      assert synced[packageJson := written] == synced;
      assert written == synced[packageJson] by {
        assert synced[packageJson := written][packageJson] == written;
      }
      assert once[packageJson := written] == once;
      assert UpdateFile(once, packageJson, env.parse, env.render, false, update) == Success(once);
      assert CreateOrUpdate(once, packageJson, template, order, env.packageTemplate, false,
                            env.parse, env.render, update) == Success(once);
    }
  }

  /** The goal run twice leaves the files as one run did. */
  lemma ExecuteInIdempotent(files: FileMap, directory: string, separator: string, gruntVersion: string,
                            p: Project, order: seq<Filter>, env: Environment)
    requires IsIterationOrder(PackageJsonTemplate(p, gruntVersion), order)
    requires forall j :: env.parse(env.render(j)) == Some(j)
    requires !env.writeFails
    requires ExecuteIn(files, directory, separator, gruntVersion, p, order, env).Success?
    ensures var once := ExecuteIn(files, directory, separator, gruntVersion, p, order, env).value;
      ExecuteIn(once, directory, separator, gruntVersion, p, order, env) == Success(once)
  {
    var update := MojoUpdate(p);
    forall m | update(m).Success?
      ensures update(update(m).value) == update(m)
    {
      UpdatePackageJsonIdempotent(m, p);
    }
    CreateAndSyncIdempotent(files, directory, separator, PackageJsonTemplate(p, gruntVersion), order, env, update);
  }

  /** What a run writing into `directory` leaves: package.json and
      Gruntfile.js there exist, nothing else changes, an existing
      Gruntfile.js is kept and a missing one is the template. */
  ghost predicate Written(files: FileMap, r: Result<FileMap, FactoryError>, directory: string, separator: string,
                          env: Environment) {
    var packageJson := TargetFile(directory, separator, PackageJsonResourceName);
    var gruntfile := TargetFile(directory, separator, GruntFileResourceName);
    && (r.Success? ==> r.value.Keys == files.Keys + {packageJson, gruntfile})
    && (r.Success? ==> forall path :: path in files && path != packageJson && path != gruntfile ==> r.value[path] == files[path])
    && (r.Success? && gruntfile in files ==> r.value[gruntfile] == files[gruntfile])
    && (r.Success? && gruntfile !in files ==> env.gruntfileTemplate.Some? && r.value[gruntfile] == env.gruntfileTemplate.value)
  }

  /** What a run writing into `directory` does to package.json: it
      succeeds exactly when no write fails, the file (existing, or created
      from a readable template) holds an object, the SCM connection is well
      formed and a missing Gruntfile.js has a readable template; package.json
      then holds the synchronised update of that object. */
  ghost predicate Synchronised(files: FileMap, r: Result<FileMap, FactoryError>, directory: string, separator: string,
                               gruntVersion: string, p: Project, order: seq<Filter>, env: Environment)
    requires IsIterationOrder(PackageJsonTemplate(p, gruntVersion), order)
  {
    var packageJson := TargetFile(directory, separator, PackageJsonResourceName);
    var gruntfile := TargetFile(directory, separator, GruntFileResourceName);
    var root := RootObject(TextToUpdate(files, packageJson, PackageJsonTemplate(p, gruntVersion), order,
                                        env.packageTemplate), env.parse);
    && (r.Success? <==>
          && !env.writeFails && root.Some? && ScmReadable(p)
          && (gruntfile in files || env.gruntfileTemplate.Some?))
    && (r.Success? ==> packageJson in r.value
                       && r.value[packageJson] == env.render(JObject(UpdatePackageJson(root.value, p).value)))
  }

  /** `execute()` as written: the target directory lacks the separator
      between the source and js source directories, so the files are
      written and synchronised there. */
  function ExecuteAsWritten(files: FileMap, d: Directories, separator: string, gruntVersion: string,
                            p: Project, order: seq<Filter>, env: Environment)
    : (r: Result<FileMap, FactoryError>)
    requires IsIterationOrder(PackageJsonTemplate(p, gruntVersion), order)
    ensures Written(files, r, TargetDirectoryAsWritten(d), separator, env)
    ensures Synchronised(files, r, TargetDirectoryAsWritten(d), separator, gruntVersion, p, order, env)
  {
    ExecuteIn(files, d.sourceDirectory + d.jsSourceDirectory, separator, gruntVersion, p, order, env)
  }

  /** `execute()` writing into the js source directory: the files are
      written and synchronised there. */
  function Execute(files: FileMap, d: Directories, separator: string, gruntVersion: string,
                   p: Project, order: seq<Filter>, env: Environment)
    : (r: Result<FileMap, FactoryError>)
    requires IsIterationOrder(PackageJsonTemplate(p, gruntVersion), order)
    ensures Written(files, r, RelativeJsSourceDirectory(d, separator), separator, env)
    ensures Synchronised(files, r, RelativeJsSourceDirectory(d, separator), separator, gruntVersion, p, order, env)
  {
    ExecuteIn(files, TargetDirectory(d, separator), separator, gruntVersion, p, order, env)
  }
}
