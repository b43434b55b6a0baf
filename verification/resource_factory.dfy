/** `ResourceFactory`: creates `package.json` and `bower.json` from their
    templates when they are missing, then synchronises them with the Maven
    project model. The JSON file is parsed and printed by functions passed
    in (`parse`, `render`): Jackson itself is not part of this model. */
module ResourceFactory {
  import opened Wrappers
  import opened Strings
  import opened JsonModel
  import opened Filters
  import opened Resources

  const GruntFileResourceName: string := "Gruntfile.js"
  const PackageJsonResourceName: string := "package.json"
  const BowerJsonResourceName: string := "bower.json"

  /** Maven's `Contributor`; a `Developer` is read through the same three
      getters. A null field is None. */
  datatype Contributor = Contributor(name: Option<string>, email: Option<string>, url: Option<string>)

  datatype Scm = Scm(url: Option<string>, connection: Option<string>)

  datatype IssueManagement = IssueManagement(url: Option<string>)

  datatype License = License(name: Option<string>)

  /** The parts of `MavenProject` the factory reads. A null list takes the
      same branch as an empty one, so lists are plain sequences. */
  datatype Project = Project(
    artifactId: string,
    version: string,
    url: Option<string>,
    description: Option<string>,
    developers: seq<Contributor>,
    contributors: seq<Contributor>,
    scm: Option<Scm>,
    issueManagement: Option<IssueManagement>,
    licenses: seq<License>)

  /** What `createOrUpdate*` can throw: the template copy failing, an
      `IOException` while reading or writing the JSON file (wrapped in a
      `MojoExecutionException`), a file whose root is not an object (the
      `ObjectNode` cast), and an SCM connection without a second ':'
      (`substring` out of range). */
  datatype FactoryError =
    | ResourceCreation(cause: ResourceCreationException)
    | UpdateFailed(path: string)
    | NotAnObject(path: string)
    | MalformedScmConnection(connection: string)

  // ---------------------------------------------------------------- paths

  /** `generateTargetFileName`: the directory, a separator only when the
      directory does not already end with one, then the resource name. */
  function GenerateTargetFileName(directory: string, separator: string, resourceName: string): (r: string)
    ensures |r| >= |resourceName| && r[|r| - |resourceName|..] == resourceName
    ensures var dir := r[..|r| - |resourceName|];
      EndsWith(dir, separator) && (dir == directory || dir == directory + separator)
    ensures EndsWith(directory, separator) ==> r[..|r| - |resourceName|] == directory
  {
    var dir := WithTrailing(directory, separator);
    assert (dir + resourceName)[..|dir|] == dir;
    dir + resourceName
  }

  /** Passing the directory with its separator already attached gives the
      same file: the separator is never doubled. */
  lemma TargetFileNameSeparatorOnce(directory: string, separator: string, resourceName: string)
    requires !EndsWith(directory, separator)
    ensures GenerateTargetFileName(directory + separator, separator, resourceName)
         == GenerateTargetFileName(directory, separator, resourceName)
  {
    WithTrailingIdempotent(directory, separator);
  }

  // ---------------------------------------------------------- contributors

  function OptText(value: Option<string>): Option<Json> {
    match value
    case None => None
    case Some(s) => Some(JString(s))
  }

  /** Reads a package.json contributor object back into a contributor. */
  function ContributorOf(node: JsonObject): Contributor {
    Contributor(TextField(node, "name"), TextField(node, "email"), TextField(node, "url"))
  }

  /** `createContributorNode`: an object holding exactly the non-null fields
      among name, email and url, so reading it back gives the contributor. */
  function ContributorNode(c: Contributor): (r: JsonObject)
    ensures r.Keys <= {"name", "email", "url"}
    ensures ("name" in r <==> c.name.Some?) && ("email" in r <==> c.email.Some?) && ("url" in r <==> c.url.Some?)
    ensures ContributorOf(r) == c
  {
    var withName := SetIfPresent(map[], "name", OptText(c.name));
    var withEmail := SetIfPresent(withName, "email", OptText(c.email));
    SetIfPresent(withEmail, "url", OptText(c.url))
  }

  /** `createBowerContributorNode`: "name <email>", the name alone, the email
      alone, or nothing when both are null. */
  function BowerContributor(c: Contributor): (r: Option<string>)
    ensures r.None? <==> c.name.None? && c.email.None?
    ensures c.name.None? ==> r == c.email
    ensures c.name.Some? ==> StartsWith(r.value, c.name.value)
    ensures c.name.Some? && c.email.None? ==> r.value == c.name.value
    ensures c.name.Some? && c.email.Some? ==> EndsWith(r.value, c.email.value + ">")
    ensures c.name.Some? && c.email.Some? ==> r.value == c.name.value + " <" + c.email.value + ">"
  {
    match (c.name, c.email)
    case (None, None) => None
    case (None, Some(e)) => Some(e)
    case (Some(n), None) => Some(n)
    case (Some(n), Some(e)) =>
      var s := n + " <" + e + ">";
      assert s[..|n|] == n;
      assert s[|s| - |e + ">"|..] == e + ">";
      Some(s)
  }

  /** Reads a bower author string: a name, then optionally " <email>"; the
      first " <" starts the email. */
  function SplitAuthor(s: string): (r: (string, Option<string>))
    ensures r.1.None? ==> r.0 == s
    ensures r.1.Some? ==> s == r.0 + " <" + r.1.value + ">"
  {
    var k := IndexOfSubFrom(s, " <", 0);
    if k >= 0 && k + 2 < |s| && s[|s| - 1] == '>' then
      var name := s[..k];
      var email := s[k + 2..|s| - 1];
      assert s[k..k + 2] == " <";
      assert s == name + " <" + email + ">";
      (name, Some(email))
    else
      (s, None)
  }

  /** A contributor with a name written to bower.json is read back whole:
      the string determines the name and the email. A name containing " <"
      is the one case the format cannot tell apart. */
  lemma BowerContributorRoundTrip(c: Contributor)
    requires c.name.Some? && !Contains(c.name.value, " <")
    ensures SplitAuthor(BowerContributor(c).value) == (c.name.value, c.email)
  {
    var n := c.name.value;
    if c.email.Some? {
      var e := c.email.value;
      var s := n + " <" + e + ">";
      assert OccursAt(s, " <", |n|) by {
        assert s[|n|..|n| + 2] == " <";
      }
      forall i | 0 <= i < |n|
        ensures !OccursAt(s, " <", i)
      {
        if i + 2 <= |n| {
          assert s[i..i + 2] == n[i..i + 2];
          assert !OccursAt(n, " <", i);
        } else {
          assert s[i + 1] == ' ';
          assert s[i..i + 2][1] == s[i + 1];
        }
      }
      var k := IndexOfSubFrom(s, " <", 0);
      assert k == |n|;
      assert s[..k] == n;
      assert s[k + 2..|s| - 1] == e;
    } else {
      assert forall i :: !OccursAt(n, " <", i);
    }
  }

  // ------------------------------------------------------------------ scm

  /** `connection.substring(4, connection.indexOf(':', 4))`: the text
      between index 4 and the next ':' ("scm:git:..." gives "git"); with no
      ':' at index 4 or later `substring` throws. */
  function ScmType(connection: string): (r: Result<string, FactoryError>)
    ensures r.Success? <==> exists i :: 4 <= i < |connection| && connection[i] == ':'
    ensures r.Success? ==> OccursAt(connection, r.value + ":", 4) && ':' !in r.value
    ensures r.Failure? ==> r.error == MalformedScmConnection(connection)
  {
    var j := IndexOfFrom(connection, ':', 4);
    if j < 0 then
      Failure(MalformedScmConnection(connection))
    else
      var t := connection[4..j];
      assert connection[4..j + 1] == t + ":";
      assert forall k :: 0 <= k < |t| ==> t[k] == connection[4 + k];
      Success(t)
  }

  /** The type is exactly what sits between the four-character prefix and
      the next ':'. */
  lemma ScmTypeOfConnection(prefix: string, kind: string, rest: string)
    requires |prefix| == 4 && ':' !in kind
    ensures ScmType(prefix + kind + ":" + rest) == Success(kind)
  {
    var s := prefix + kind + ":" + rest;
    assert s[4 + |kind|] == ':';
    forall i | 4 <= i < 4 + |kind|
      ensures s[i] != ':'
    {
      assert s[i] == kind[i - 4];
    }
    assert IndexOfFrom(s, ':', 4) == 4 + |kind|;
    assert s[4..4 + |kind|] == kind;
  }

  /** `repoNode`: "url" when the SCM url is set and "type" when the
      connection is set. */
  function RepositoryNode(scm: Scm): (r: Result<JsonObject, FactoryError>)
    ensures r.Success? <==> scm.connection.None? || ScmType(scm.connection.value).Success?
    ensures r.Success? ==> r.value.Keys <= {"url", "type"} && TextField(r.value, "url") == scm.url
    ensures r.Success? ==> ("type" in r.value <==> scm.connection.Some?)
    ensures r.Success? && scm.connection.Some? ==>
      r.value["type"] == JString(ScmType(scm.connection.value).value)
  {
    var withUrl := SetIfPresent(map[], "url", OptText(scm.url));
    match scm.connection
    case None => Success(withUrl)
    case Some(connection) =>
      match ScmType(connection)
      case Failure(e) => Failure(e)
      case Success(kind) => Success(withUrl["type" := JString(kind)])
  }

  /** `bugsNode`: a nested object, empty when the issue url is null. */
  function BugsNode(issues: IssueManagement): (r: JsonObject)
    ensures r.Keys <= {"url"} && TextField(r, "url") == issues.url
  {
    SetIfPresent(map[], "url", OptText(issues.url))
  }

  // ------------------------------------------------------- package.json

  /** The package.json contributors: the developers after the first, then
      the contributors, in order. */
  function PackageContributors(p: Project): (r: seq<Contributor>)
    ensures |p.developers| > 0 ==> r == p.developers[1..] + p.contributors
    ensures |p.developers| == 0 ==> r == p.contributors
  {
    (if |p.developers| > 0 then p.developers[1..] else []) + p.contributors
  }

  function ContributorNodes(cs: seq<Contributor>): (r: seq<Json>)
    ensures |r| == |cs|
    ensures forall i :: 0 <= i < |cs| ==> r[i] == JObject(ContributorNode(cs[i]))
  {
    seq(|cs|, i requires 0 <= i < |cs| => JObject(ContributorNode(cs[i])))
  }

  /** The first license's name, when there is a license and it has one. */
  function LicenseName(p: Project): Option<string> {
    if |p.licenses| > 0 then p.licenses[0].name else None
  }

  function AuthorValue(p: Project): Option<Json> {
    if |p.developers| > 0 then Some(JObject(ContributorNode(p.developers[0]))) else None
  }

  function PackageContributorsValue(p: Project): Option<Json> {
    var cs := PackageContributors(p);
    if |cs| > 0 then Some(JArray(ContributorNodes(cs))) else None
  }

  function RepositoryValue(p: Project): Option<Json> {
    match p.scm
    case None => None
    case Some(scm) =>
      match RepositoryNode(scm)
      case Success(node) => Some(JObject(node))
      case Failure(_) => None
  }

  function BugsValue(p: Project): Option<Json> {
    match p.issueManagement
    case None => None
    case Some(issues) => Some(JObject(BugsNode(issues)))
  }

  /** The SCM connection, when there is one, is well formed. */
  predicate ScmReadable(p: Project) {
    p.scm.None? || RepositoryNode(p.scm.value).Success?
  }

  /** The fields `updatePackageJson` sets, in the order it sets them, each
      None when its null test skips it: version always; homepage and
      description when known; the first developer as author; the other
      developers then the contributors, when there are any; the repository
      and bugs objects when declared; the first license's name. */
  function PackageFields(p: Project): (r: seq<Field>)
    ensures DistinctKeys(r)
    ensures KeyList(r) == ["version", "homepage", "description", "author", "contributors", "repository", "bugs", "license"]
  {
    [("version", Some(JString(p.version))),
     ("homepage", OptText(p.url)),
     ("description", OptText(p.description)),
     ("author", AuthorValue(p)),
     ("contributors", PackageContributorsValue(p)),
     ("repository", RepositoryValue(p)),
     ("bugs", BugsValue(p)),
     ("license", OptText(LicenseName(p)))]
  }

  /** `updatePackageJson` on the parsed root object. */
  function UpdatePackageJson(root: JsonObject, p: Project): (r: Result<JsonObject, FactoryError>)
    ensures r.Success? <==> ScmReadable(p)
    ensures r.Failure? ==> r.error == MalformedScmConnection(p.scm.value.connection.value)
    ensures r.Success? ==> FieldsSynced(root, r.value, PackageFields(p))
  {
    if !ScmReadable(p) then
      Failure(RepositoryNode(p.scm.value).error)
    else
      ApplyFieldsSynced(root, PackageFields(p));
      Success(ApplyFields(root, PackageFields(p)))
  }

  /** Synchronising an already synchronised package.json changes nothing. */
  lemma UpdatePackageJsonIdempotent(root: JsonObject, p: Project)
    requires ScmReadable(p)
    ensures UpdatePackageJson(UpdatePackageJson(root, p).value, p) == UpdatePackageJson(root, p)
  {
    var once := UpdatePackageJson(root, p).value;
    FieldsSyncedTwice(root, once, UpdatePackageJson(once, p).value, PackageFields(p));
  }

  /** Two developers and one contributor: the first developer is the author
      and the contributors array lists the second developer, then the
      contributor. */
  lemma SecondaryDevelopersAreContributors(root: JsonObject, p: Project, lead: Contributor, second: Contributor, other: Contributor)
    requires ScmReadable(p)
    requires p.developers == [lead, second] && p.contributors == [other]
    ensures var m := UpdatePackageJson(root, p).value;
      && "author" in m && m["author"] == JObject(ContributorNode(lead))
      && "contributors" in m && m["contributors"] == JArray([JObject(ContributorNode(second)), JObject(ContributorNode(other))])
  {
    var m := UpdatePackageJson(root, p).value;
    var fields := PackageFields(p);
    assert PackageContributors(p) == [second, other];
    assert Synced(root, m, fields[3].0, fields[3].1);
    assert Synced(root, m, fields[4].0, fields[4].1);
  }

  // ---------------------------------------------------------- bower.json

  /** The bower strings of the contributors that have a name or an email,
      in order; the others are dropped. */
  function BowerNames(cs: seq<Contributor>): (r: seq<Json>)
    ensures |r| <= |cs|
    ensures r == [] <==> forall i :: 0 <= i < |cs| ==> BowerContributor(cs[i]).None?
    ensures forall j :: 0 <= j < |r| ==> r[j].JString?
    decreases |cs|
  {
    if cs == [] then []
    else
      var rest := BowerNames(cs[1..]);
      assert forall i :: 1 <= i < |cs| ==> cs[i] == cs[1..][i - 1];
      match BowerContributor(cs[0])
      case None => rest
      case Some(s) => [JString(s)] + rest
  }

  /** Filtering distributes over concatenation: order is kept. */
  lemma {:induction false} BowerNamesAppend(a: seq<Contributor>, b: seq<Contributor>)
    ensures BowerNames(a + b) == BowerNames(a) + BowerNames(b)
    decreases |a|
  {
    if a == [] {
      assert a + b == b;
    } else {
      assert (a + b)[0] == a[0];
      assert (a + b)[1..] == a[1..] + b;
      BowerNamesAppend(a[1..], b);
    }
  }

  /** When everyone has a name or an email, nobody is dropped and the i-th
      string is the i-th contributor's. */
  lemma {:induction false} BowerNamesAllNamed(cs: seq<Contributor>)
    requires forall i :: 0 <= i < |cs| ==> BowerContributor(cs[i]).Some?
    ensures |BowerNames(cs)| == |cs|
    ensures forall i :: 0 <= i < |cs| ==> BowerNames(cs)[i] == JString(BowerContributor(cs[i]).value)
    decreases |cs|
  {
    if cs != [] {
      assert forall i :: 1 <= i < |cs| ==> cs[i] == cs[1..][i - 1];
      BowerNamesAllNamed(cs[1..]);
    }
  }

  function BowerArray(cs: seq<Contributor>): Option<Json> {
    var names := BowerNames(cs);
    if |names| > 0 then Some(JArray(names)) else None
  }

  /** The fields `updateBowerJson` sets, in order: version always; homepage
      and description when known; every developer under "authors" and every
      contributor under "contributors", each array only when non-empty; the
      first license's name. */
  function BowerFields(p: Project): (r: seq<Field>)
    ensures DistinctKeys(r)
    ensures KeyList(r) == ["version", "homepage", "description", "authors", "contributors", "license"]
  {
    [("version", Some(JString(p.version))),
     ("homepage", OptText(p.url)),
     ("description", OptText(p.description)),
     ("authors", BowerArray(p.developers)),
     ("contributors", BowerArray(p.contributors)),
     ("license", OptText(LicenseName(p)))]
  }

  /** `updateBowerJson` on the parsed root object. */
  function UpdateBowerJson(root: JsonObject, p: Project): (r: JsonObject)
    ensures FieldsSynced(root, r, BowerFields(p))
  {
    ApplyFieldsSynced(root, BowerFields(p));
    ApplyFields(root, BowerFields(p))
  }

  /** Synchronising an already synchronised bower.json changes nothing. */
  lemma UpdateBowerJsonIdempotent(root: JsonObject, p: Project)
    ensures UpdateBowerJson(UpdateBowerJson(root, p), p) == UpdateBowerJson(root, p)
  {
    var once := UpdateBowerJson(root, p);
    FieldsSyncedTwice(root, once, UpdateBowerJson(once, p), BowerFields(p));
  }

  // ------------------------------------------------ templates and files

  /** `createPackageJson`'s template filters; a null url or description
      becomes "". */
  function PackageJsonTemplate(p: Project, gruntVersion: string): (r: Resource)
    ensures r.resourceName == "/" + PackageJsonResourceName
    ensures r.filters == [
      MakeFilter("project.artifactId", p.artifactId),
      MakeFilter("project.version", p.version),
      MakeFilter("project.description", p.description.GetOr("")),
      MakeFilter("project.url", p.url.GetOr("")),
      MakeFilter("grunt.version", gruntVersion)]
  {
    var r := From("/" + PackageJsonResourceName);
    var r := WithFilter(r, "project.artifactId", p.artifactId);
    var r := WithFilter(r, "project.version", p.version);
    var r := WithFilter(r, "project.description", p.description.GetOr(""));
    var r := WithFilter(r, "project.url", p.url.GetOr(""));
    WithFilter(r, "grunt.version", gruntVersion)
  }

  /** `createBowerJson`'s template filters: as for package.json, without the
      grunt version. */
  function BowerJsonTemplate(p: Project): (r: Resource)
    ensures r.resourceName == "/" + BowerJsonResourceName
    ensures r.filters == [
      MakeFilter("project.artifactId", p.artifactId),
      MakeFilter("project.version", p.version),
      MakeFilter("project.description", p.description.GetOr("")),
      MakeFilter("project.url", p.url.GetOr(""))]
  {
    var r := From("/" + BowerJsonResourceName);
    var r := WithFilter(r, "project.artifactId", p.artifactId);
    var r := WithFilter(r, "project.version", p.version);
    var r := WithFilter(r, "project.description", p.description.GetOr(""));
    WithFilter(r, "project.url", p.url.GetOr(""))
  }

  /** `createGruntfile`: the Gruntfile template, without filters. */
  function GruntfileTemplate(): (r: Resource)
    ensures r.resourceName == "/" + GruntFileResourceName && r.filters == []
  {
    From("/" + GruntFileResourceName)
  }

  /** `createGruntfile`: copies the unfiltered Gruntfile template to
      `target`, leaving an existing file as it is. */
  function CreateGruntfile(files: FileMap, target: string, templateText: Option<string>, writeFails: bool)
    : (r: Result<FileMap, FactoryError>)
    ensures templateText.Some? && target in files ==> r == Success(files)
    ensures templateText.Some? && target !in files && !writeFails ==>
      r == Success(files[target := templateText.value])
    ensures templateText.None? || (target !in files && writeFails) ==>
      r == Failure(ResourceCreation(ResourceCreationException("/" + GruntFileResourceName, target)))
  {
    match CopyResource(files, GruntfileTemplate(), [], templateText, writeFails, target, false)
    case Failure(e) => Failure(ResourceCreation(e))
    case Success(created) => Success(created)
  }

  /** Reads the JSON file at `target`, applies `update` to its root object
      and writes the result back; `writeFails` makes the write throw. */
  function UpdateFile(files: FileMap, target: string, parse: string -> Option<Json>, render: Json -> string,
                      writeFails: bool, update: JsonObject -> Result<JsonObject, FactoryError>)
    : (r: Result<FileMap, FactoryError>)
    requires target in files
    ensures parse(files[target]).None? ==> r == Failure(UpdateFailed(target))
    ensures parse(files[target]).Some? && !parse(files[target]).value.JObject? ==> r == Failure(NotAnObject(target))
    ensures r.Success? <==>
      && parse(files[target]).Some? && parse(files[target]).value.JObject?
      && update(parse(files[target]).value.fields).Success? && !writeFails
    ensures r.Success? ==>
      r.value == files[target := render(JObject(update(parse(files[target]).value.fields).value))]
  {
    match parse(files[target])
    case None => Failure(UpdateFailed(target))
    case Some(node) =>
      if !node.JObject? then Failure(NotAnObject(target))
      else
        match update(node.fields)
        case Failure(e) => Failure(e)
        case Success(updated) =>
          if writeFails then Failure(UpdateFailed(target))
          else Success(files[target := render(JObject(updated))])
  }

  /** The text the update reads: the existing file, or the template
      filtered into the missing one; None when a missing file has no
      template to be created from. */
  function TextToUpdate(files: FileMap, target: string, template: Resource, order: seq<Filter>,
                        templateText: Option<string>): Option<string>
    requires IsIterationOrder(template, order)
  {
    if target in files then Some(files[target])
    else if templateText.Some? then Some(FilterContents(template, order, templateText.value))
    else None
  }

  /** The root object of `text`, when it parses to an object. */
  function RootObject(text: Option<string>, parse: string -> Option<Json>): Option<JsonObject> {
    if text.Some? && parse(text.value).Some? && parse(text.value).value.JObject?
    then Some(parse(text.value).value.fields)
    else None
  }

  /** `createOrUpdate*`: copies the template when the file is missing (an
      existing file is left to the update), then always updates it. */
  function CreateOrUpdate(files: FileMap, target: string, template: Resource, order: seq<Filter>,
                          templateText: Option<string>, writeFails: bool,
                          parse: string -> Option<Json>, render: Json -> string,
                          update: JsonObject -> Result<JsonObject, FactoryError>)
    : (r: Result<FileMap, FactoryError>)
    requires IsIterationOrder(template, order)
    ensures target in files ==> r == UpdateFile(files, target, parse, render, writeFails, update)
    ensures target !in files && (templateText.None? || writeFails) ==>
      r == Failure(ResourceCreation(ResourceCreationException(template.resourceName, target)))
    ensures target !in files && templateText.Some? && !writeFails ==>
      r == UpdateFile(files[target := FilterContents(template, order, templateText.value)],
                      target, parse, render, writeFails, update)
    ensures var root := RootObject(TextToUpdate(files, target, template, order, templateText), parse);
      && (r.Success? <==> !writeFails && root.Some? && update(root.value).Success?)
      && (r.Success? ==> target in r.value && r.value[target] == render(JObject(update(root.value).value)))
  {
    if target in files then
      UpdateFile(files, target, parse, render, writeFails, update)
    else
      match CopyResource(files, template, order, templateText, writeFails, target, false)
      case Failure(e) => Failure(ResourceCreation(e))
      case Success(created) => UpdateFile(created, target, parse, render, writeFails, update)
  }

  /** Only the target path is touched. */
  lemma CreateOrUpdateFrame(files: FileMap, target: string, template: Resource, order: seq<Filter>,
                            templateText: Option<string>, writeFails: bool,
                            parse: string -> Option<Json>, render: Json -> string,
                            update: JsonObject -> Result<JsonObject, FactoryError>)
    requires IsIterationOrder(template, order)
    ensures var r := CreateOrUpdate(files, target, template, order, templateText, writeFails, parse, render, update);
      r.Success? ==> r.value.Keys == files.Keys + {target}
                     && forall path :: path in files && path != target ==> r.value[path] == files[path]
  {
  }

  /** When reading back what was written gives the same tree and the update
      is idempotent, a second run leaves the files as the first one did. */
  lemma CreateOrUpdateIdempotent(files: FileMap, target: string, template: Resource, order: seq<Filter>,
                                 templateText: Option<string>,
                                 parse: string -> Option<Json>, render: Json -> string,
                                 update: JsonObject -> Result<JsonObject, FactoryError>)
    requires IsIterationOrder(template, order)
    requires forall j :: parse(render(j)) == Some(j)
    requires forall m :: update(m).Success? ==> update(update(m).value) == update(m)
    requires CreateOrUpdate(files, target, template, order, templateText, false, parse, render, update).Success?
    ensures var once := CreateOrUpdate(files, target, template, order, templateText, false, parse, render, update).value;
      CreateOrUpdate(once, target, template, order, templateText, false, parse, render, update) == Success(once)
  {
    var before := if target in files then files
                  else files[target := FilterContents(template, order, templateText.value)];
    var root := parse(before[target]).value.fields;
    var updated := update(root).value;
    var once := before[target := render(JObject(updated))];
    assert CreateOrUpdate(files, target, template, order, templateText, false, parse, render, update) == Success(once);
    assert parse(once[target]) == Some(JObject(updated));
    assert update(updated) == Success(updated);
    assert once[target := render(JObject(updated))] == once;
  }

  function PackageUpdate(p: Project): JsonObject -> Result<JsonObject, FactoryError> {
    root => UpdatePackageJson(root, p)
  }

  function BowerUpdate(p: Project): JsonObject -> Result<JsonObject, FactoryError> {
    root => Success(UpdateBowerJson(root, p))
  }

  /** `createOrUpdatePackageJson(sourceDirectory, gruntVersion, project)`. */
  function CreateOrUpdatePackageJson(files: FileMap, sourceDirectory: string, separator: string,
                                     gruntVersion: string, p: Project, order: seq<Filter>,
                                     templateText: Option<string>, writeFails: bool,
                                     parse: string -> Option<Json>, render: Json -> string)
    : (r: Result<FileMap, FactoryError>)
    requires IsIterationOrder(PackageJsonTemplate(p, gruntVersion), order)
    ensures var target := GenerateTargetFileName(sourceDirectory, separator, PackageJsonResourceName);
      && (target in files ==> r == UpdateFile(files, target, parse, render, writeFails, PackageUpdate(p)))
      && (target !in files && (templateText.None? || writeFails) ==>
            r == Failure(ResourceCreation(ResourceCreationException(PackageJsonTemplate(p, gruntVersion).resourceName, target))))
      && (target !in files && templateText.Some? && !writeFails ==>
            r == UpdateFile(files[target := FilterContents(PackageJsonTemplate(p, gruntVersion), order, templateText.value)],
                            target, parse, render, false, PackageUpdate(p)))
      && (r.Success? ==> r.value.Keys == files.Keys + {target}
                         && forall path :: path in files && path != target ==> r.value[path] == files[path])
  {
    CreateOrUpdateFrame(files, GenerateTargetFileName(sourceDirectory, separator, PackageJsonResourceName),
                        PackageJsonTemplate(p, gruntVersion), order, templateText, writeFails, parse, render,
                        PackageUpdate(p));
    CreateOrUpdate(files, GenerateTargetFileName(sourceDirectory, separator, PackageJsonResourceName),
                   PackageJsonTemplate(p, gruntVersion), order, templateText, writeFails, parse, render,
                   PackageUpdate(p))
  }

  /** `createOrUpdateBowerJson(sourceDirectory, project)`. */
  function CreateOrUpdateBowerJson(files: FileMap, sourceDirectory: string, separator: string,
                                   p: Project, order: seq<Filter>, templateText: Option<string>,
                                   writeFails: bool, parse: string -> Option<Json>, render: Json -> string)
    : (r: Result<FileMap, FactoryError>)
    requires IsIterationOrder(BowerJsonTemplate(p), order)
    ensures var target := GenerateTargetFileName(sourceDirectory, separator, BowerJsonResourceName);
      && (target in files ==> r == UpdateFile(files, target, parse, render, writeFails, BowerUpdate(p)))
      && (target !in files && (templateText.None? || writeFails) ==>
            r == Failure(ResourceCreation(ResourceCreationException(BowerJsonTemplate(p).resourceName, target))))
      && (target !in files && templateText.Some? && !writeFails ==>
            r == UpdateFile(files[target := FilterContents(BowerJsonTemplate(p), order, templateText.value)],
                            target, parse, render, false, BowerUpdate(p)))
      && (r.Success? ==> r.value.Keys == files.Keys + {target}
                         && forall path :: path in files && path != target ==> r.value[path] == files[path])
  {
    CreateOrUpdateFrame(files, GenerateTargetFileName(sourceDirectory, separator, BowerJsonResourceName),
                        BowerJsonTemplate(p), order, templateText, writeFails, parse, render, BowerUpdate(p));
    CreateOrUpdate(files, GenerateTargetFileName(sourceDirectory, separator, BowerJsonResourceName),
                   BowerJsonTemplate(p), order, templateText, writeFails, parse, render, BowerUpdate(p))
  }

  /** An existing package.json is never re-created: the template text plays
      no part. */
  lemma ExistingPackageJsonIgnoresTemplate(files: FileMap, sourceDirectory: string, separator: string,
                                           gruntVersion: string, p: Project, order: seq<Filter>,
                                           text1: Option<string>, text2: Option<string>, writeFails: bool,
                                           parse: string -> Option<Json>, render: Json -> string)
    requires IsIterationOrder(PackageJsonTemplate(p, gruntVersion), order)
    requires GenerateTargetFileName(sourceDirectory, separator, PackageJsonResourceName) in files
    ensures CreateOrUpdatePackageJson(files, sourceDirectory, separator, gruntVersion, p, order, text1, writeFails, parse, render)
         == CreateOrUpdatePackageJson(files, sourceDirectory, separator, gruntVersion, p, order, text2, writeFails, parse, render)
  {
  }

  /** A second `createOrUpdatePackageJson` leaves the files as the first one
      did, provided reading back what was written gives the same tree. */
  lemma CreateOrUpdatePackageJsonIdempotent(files: FileMap, sourceDirectory: string, separator: string,
                                            gruntVersion: string, p: Project, order: seq<Filter>,
                                            templateText: Option<string>,
                                            parse: string -> Option<Json>, render: Json -> string)
    requires IsIterationOrder(PackageJsonTemplate(p, gruntVersion), order)
    requires forall j :: parse(render(j)) == Some(j)
    requires CreateOrUpdatePackageJson(files, sourceDirectory, separator, gruntVersion, p, order, templateText, false, parse, render).Success?
    ensures var once := CreateOrUpdatePackageJson(files, sourceDirectory, separator, gruntVersion, p, order, templateText, false, parse, render).value;
      CreateOrUpdatePackageJson(once, sourceDirectory, separator, gruntVersion, p, order, templateText, false, parse, render)
        == Success(once)
  {
    var update := PackageUpdate(p);
    forall m | update(m).Success?
      ensures update(update(m).value) == update(m)
    {
      UpdatePackageJsonIdempotent(m, p);
    }
    CreateOrUpdateIdempotent(files, GenerateTargetFileName(sourceDirectory, separator, PackageJsonResourceName),
                             PackageJsonTemplate(p, gruntVersion), order, templateText, parse, render, update);
  }

  /** The same for bower.json. */
  lemma CreateOrUpdateBowerJsonIdempotent(files: FileMap, sourceDirectory: string, separator: string,
                                          p: Project, order: seq<Filter>, templateText: Option<string>,
                                          parse: string -> Option<Json>, render: Json -> string)
    requires IsIterationOrder(BowerJsonTemplate(p), order)
    requires forall j :: parse(render(j)) == Some(j)
    requires CreateOrUpdateBowerJson(files, sourceDirectory, separator, p, order, templateText, false, parse, render).Success?
    ensures var once := CreateOrUpdateBowerJson(files, sourceDirectory, separator, p, order, templateText, false, parse, render).value;
      CreateOrUpdateBowerJson(once, sourceDirectory, separator, p, order, templateText, false, parse, render)
        == Success(once)
  {
    var update := BowerUpdate(p);
    forall m | update(m).Success?
      ensures update(update(m).value) == update(m)
    {
      UpdateBowerJsonIdempotent(m, p);
    }
    CreateOrUpdateIdempotent(files, GenerateTargetFileName(sourceDirectory, separator, BowerJsonResourceName),
                             BowerJsonTemplate(p), order, templateText, parse, render, update);
  }
}
