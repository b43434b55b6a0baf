/** maven-workflow.js: the grunt half of the integrated workflow. It reads
    the inner properties the `create-resources` goal wrote, copies the js
    sources except the Maven-filtered ones into the grunt build directory,
    and registers the `maven` and `maven-watch` tasks. */
module MavenWorkflow {
  import opened Wrappers
  import opened Strings
  import opened BaseMojo
  import CreateResources
  import opened Filters

  /** The inner properties the script reads. */
  datatype MavenProperties = MavenProperties(
    projectRootPath: string,
    sourceDirectory: string,
    jsSourceDirectory: string,
    targetPath: string,
    filteredFiles: seq<string>)

  /** The project's own workflow properties. */
  datatype WorkflowProperties = WorkflowProperties(
    distFilePatterns: seq<string>,
    distDirectory: string,
    warName: string)

  /** One `files` entry of a grunt copy task. */
  datatype CopyFiles = CopyFiles(cwd: Option<string>, src: seq<string>, dest: string)

  const CopyAll: string := "./**"
  const SrcToGruntTarget: string := "copy:mavenSrcToGruntTaget"
  const GruntTargetToDist: string := "copy:mavenGruntTargetToDist"
  const DistToMavenTarget: string := "copy:mavenDistToMavenTarget"

  // ----------------------------------------------------------- path.posix

  /** The '/'-separated segments of a path, empty ones included: "a//b/"
      has the segments "a", "", "b" and "". */
  function Segments(p: string): (r: seq<string>)
    ensures |r| >= 1
    decreases |p|
  {
    if p == "" then [""]
    else if p[0] == '/' then [""] + Segments(p[1..])
    else
      var rest := Segments(p[1..]);
      [[p[0]] + rest[0]] + rest[1..]
  }

  /** Segments put back together with one '/' between neighbours. */
  function Unsplit(segments: seq<string>): string {
    if segments == [] then ""
    else if |segments| == 1 then segments[0]
    else segments[0] + "/" + Unsplit(segments[1..])
  }

  /** `normalizeString`: empty and "." segments are dropped, and ".." drops
      the segment kept before it; a ".." with nothing to drop is kept when
      the path may climb above its start (a relative path), and dropped
      otherwise. */
  function Resolve(kept: seq<string>, segments: seq<string>, aboveRoot: bool): seq<string>
    decreases |segments|
  {
    if segments == [] then kept
    else
      var s := segments[0];
      if s == "" || s == "." then Resolve(kept, segments[1..], aboveRoot)
      else if s == ".." then
        if kept != [] && kept[|kept| - 1] != ".." then Resolve(kept[..|kept| - 1], segments[1..], aboveRoot)
        else if aboveRoot then Resolve(kept + [".."], segments[1..], aboveRoot)
        else Resolve(kept, segments[1..], aboveRoot)
      else Resolve(kept + [s], segments[1..], aboveRoot)
  }

  /** `path.posix.normalize`: the resolved segments, behind a '/' when the
      path is absolute and followed by one when it ends with '/'; "." (or
      "./", or "/") when nothing is left. */
  function Normalize(p: string): string {
    if p == "" then "."
    else
      var absolute := p[0] == '/';
      var trailing := p[|p| - 1] == '/';
      var body := Unsplit(Resolve([], Segments(p), !absolute));
      if body == "" then (if absolute then "/" else if trailing then "./" else ".")
      else (if absolute then "/" else "") + body + (if trailing then "/" else "")
  }

  /** The arguments of `path.join` that are not empty, in order. */
  function NonEmpty(parts: seq<string>): seq<string> {
    if parts == [] then []
    else (if parts[0] == "" then [] else [parts[0]]) + NonEmpty(parts[1..])
  }

  /** `path.posix.join(parts...)`: the non-empty arguments joined with '/'
      and normalised; "." when there are none. */
  function Join(parts: seq<string>): string {
    var given := NonEmpty(parts);
    if given == [] then "." else Normalize(Unsplit(given))
  }

  /** Segments that normalisation keeps as they are. */
  predicate PlainSegments(segments: seq<string>) {
    forall i :: 0 <= i < |segments| ==> segments[i] != "" && segments[i] != "." && segments[i] != ".."
  }

  /** A relative path in normal form: no empty, "." or ".." segment, so no
      leading, trailing or doubled '/'. */
  predicate PlainRelative(p: string) {
    PlainSegments(Segments(p))
  }

  /** A relative or absolute path in normal form, such as a canonical base
      directory. */
  predicate PlainPath(p: string) {
    PlainRelative(p) || (|p| > 0 && p[0] == '/' && PlainRelative(p[1..]))
  }

  /** Splitting undoes joining: the segments of a path give the path back. */
  lemma {:induction false} UnsplitSegments(p: string)
    ensures Unsplit(Segments(p)) == p
    decreases |p|
  {
    if p == "" {
    } else if p[0] == '/' {
      UnsplitSegments(p[1..]);
      var rest := Segments(p[1..]);
      assert ([""] + rest)[1..] == rest;
    } else {
      UnsplitSegments(p[1..]);
      var rest := Segments(p[1..]);
      var segments := [[p[0]] + rest[0]] + rest[1..];
      if |rest| > 1 {
        assert segments[1..] == rest[1..];
      }
    }
  }

  /** Joining with '/' appends the segments: the segments of `x + "/" + y`
      are those of `x` followed by those of `y`. */
  lemma {:induction false} SegmentsAppend(x: string, y: string)
    ensures Segments(x + "/" + y) == Segments(x) + Segments(y)
    decreases |x|
  {
    if x == "" {
      assert x + "/" + y == "/" + y;
      assert ("/" + y)[1..] == y;
    } else {
      assert (x + "/" + y)[1..] == x[1..] + "/" + y;
      SegmentsAppend(x[1..], y);
    }
  }

  /** A path without '/' is one segment. */
  lemma {:induction false} SegmentsWithoutSlash(p: string)
    requires '/' !in p
    ensures Segments(p) == [p]
    decreases |p|
  {
    if p != "" {
      assert p[0] != '/' && '/' !in p[1..];
      SegmentsWithoutSlash(p[1..]);
      assert [p[0]] + p[1..] == p;
    }
  }

  /** A path ending with '/' ends with an empty segment. */
  lemma {:induction false} TrailingSlashSegment(p: string)
    requires p != "" && p[|p| - 1] == '/'
    ensures |Segments(p)| >= 2 && Segments(p)[|Segments(p)| - 1] == ""
    decreases |p|
  {
    if |p| == 1 {
      assert p == "/" && p[1..] == "";
    } else {
      var rest := Segments(p[1..]);
      TrailingSlashSegment(p[1..]);
      if p[0] == '/' {
        assert Segments(p) == [""] + rest;
      } else {
        assert Segments(p) == [[p[0]] + rest[0]] + rest[1..];
      }
    }
  }

  /** Plain segments are kept, in order. */
  lemma {:induction false} ResolvePlain(kept: seq<string>, segments: seq<string>, aboveRoot: bool)
    requires PlainSegments(segments)
    ensures Resolve(kept, segments, aboveRoot) == kept + segments
    decreases |segments|
  {
    if segments != [] {
      ResolvePlain(kept + [segments[0]], segments[1..], aboveRoot);
      assert kept + [segments[0]] + segments[1..] == kept + segments;
    }
  }

  /** A path in normal form is its own normalisation. */
  lemma NormalizePlain(p: string)
    requires PlainPath(p)
    ensures Normalize(p) == p
  {
    if PlainRelative(p) {
      NormalizeRelativePlain(p);
    } else {
      assert p == "/" + p[1..];
      NormalizeAbsolutePlain(p[1..]);
    }
  }

  /** A relative path in normal form is its own normalisation. */
  lemma NormalizeRelativePlain(p: string)
    requires PlainRelative(p)
    ensures Normalize(p) == p
  {
    RelativeShape(p);
    ResolvePlain([], Segments(p), true);
    assert [] + Segments(p) == Segments(p);
    UnsplitSegments(p);
    assert Unsplit(Resolve([], Segments(p), true)) == p;
    assert Normalize(p) == "" + p + "";
  }

  /** An absolute path in normal form is its own normalisation. */
  lemma NormalizeAbsolutePlain(rest: string)
    requires PlainRelative(rest)
    ensures Normalize("/" + rest) == "/" + rest
  {
    var p := "/" + rest;
    assert p[0] == '/' && p[1..] == rest;
    RelativeShape(rest);
    var segments := [""] + Segments(rest);
    assert Segments(p) == segments;
    assert segments[1..] == Segments(rest);
    assert Resolve([], segments, false) == Resolve([], Segments(rest), false);
    ResolvePlain([], Segments(rest), false);
    assert [] + Segments(rest) == Segments(rest);
    UnsplitSegments(rest);
    assert Unsplit(Resolve([], Segments(p), false)) == rest;
    assert p[|p| - 1] == rest[|rest| - 1];
    assert Normalize(p) == "/" + rest + "";
  }

  /** A relative path in normal form is not empty and has no '/' at either
      end. */
  lemma RelativeShape(p: string)
    requires PlainRelative(p)
    ensures p != "" && p[0] != '/' && p[|p| - 1] != '/'
  {
    assert Segments(p)[0] != "";
    if p != "" && p[|p| - 1] == '/' {
      TrailingSlashSegment(p);
      assert false;
    }
  }

  /** A path in normal form, '/' and a relative path in normal form give a
      path in normal form. */
  lemma PlainAppend(x: string, y: string)
    requires PlainPath(x) && PlainRelative(y)
    ensures PlainPath(x + "/" + y)
    ensures PlainRelative(x) ==> PlainRelative(x + "/" + y)
  {
    if PlainRelative(x) {
      SegmentsAppend(x, y);
    } else {
      SegmentsAppend(x[1..], y);
      assert (x + "/" + y)[1..] == x[1..] + "/" + y;
    }
  }

  /** Path arguments `path.join` leaves alone: a first one in normal form
      and relative ones in normal form after it. */
  predicate PlainParts(parts: seq<string>) {
    && |parts| >= 1
    && PlainPath(parts[0])
    && forall i :: 1 <= i < |parts| ==> PlainRelative(parts[i])
  }

  lemma {:induction false} UnsplitPlain(parts: seq<string>)
    requires PlainParts(parts)
    ensures PlainPath(Unsplit(parts))
    ensures PlainRelative(parts[0]) ==> PlainRelative(Unsplit(parts))
    ensures NonEmpty(parts) == parts
    decreases |parts|
  {
    if |parts| == 1 {
      if PlainRelative(parts[0]) {
        RelativeShape(parts[0]);
      } else {
        assert parts[0] != "";
      }
      assert NonEmpty(parts) == [parts[0]] + NonEmpty([]);
    } else {
      var tail := parts[1..];
      assert PlainRelative(tail[0]);
      UnsplitPlain(tail);
      PlainAppend(parts[0], Unsplit(tail));
      if PlainRelative(parts[0]) {
        RelativeShape(parts[0]);
      } else {
        assert parts[0] != "";
      }
    }
  }

  /** `path.join` of arguments in normal form is their plain '/'-joined
      concatenation: normalisation has nothing to do. */
  lemma JoinPlain(parts: seq<string>)
    requires PlainParts(parts)
    ensures Join(parts) == Unsplit(parts)
  {
    UnsplitPlain(parts);
    NormalizePlain(Unsplit(parts));
  }

  /** The copy-source globs as a reference: everything, then one negated
      glob per filtered file, in order. */
  function CopySourceGlobs(filteredFiles: seq<string>): seq<string> {
    [CopyAll] + seq(|filteredFiles|, i requires 0 <= i < |filteredFiles| => "!./" + filteredFiles[i])
  }

  /** `copySrcToGruntTargetFiles`: starts from `CopyAll` and pushes "!./" + f
      for each filtered file. */
  method CopySrcToGruntTargetFiles(filteredFiles: seq<string>) returns (globs: seq<string>)
    ensures |globs| == 1 + |filteredFiles| && globs[0] == CopyAll
    ensures forall i :: 0 <= i < |filteredFiles| ==> globs[i + 1] == "!./" + filteredFiles[i]
    ensures globs == CopySourceGlobs(filteredFiles)
  {
    globs := [CopyAll];
    var i := 0;
    while i < |filteredFiles|
      invariant 0 <= i <= |filteredFiles|
      invariant |globs| == 1 + i && globs[0] == CopyAll
      invariant forall j :: 0 <= j < i ==> globs[j + 1] == "!./" + filteredFiles[j]
    {
      globs := globs + ["!./" + filteredFiles[i]];
      i := i + 1;
    }
  }

  /** The files a glob list excludes: the negated globs with their "!./"
      removed, in order. */
  function ExcludedFiles(globs: seq<string>): (r: seq<string>)
    ensures |r| <= |globs|
  {
    if globs == [] then []
    else (if StartsWith(globs[0], "!./") then [globs[0][3..]] else []) + ExcludedFiles(globs[1..])
  }

  /** A file is excluded exactly when "!./" followed by its name is one of
      the globs. */
  lemma {:induction false} ExcludedFilesAreNegated(globs: seq<string>)
    ensures forall x :: x in ExcludedFiles(globs) ==> "!./" + x in globs
    ensures forall i :: 0 <= i < |globs| && StartsWith(globs[i], "!./") ==> globs[i][3..] in ExcludedFiles(globs)
    decreases |globs|
  {
    if globs != [] {
      var rest := globs[1..];
      ExcludedFilesAreNegated(rest);
      var head := if StartsWith(globs[0], "!./") then [globs[0][3..]] else [];
      assert ExcludedFiles(globs) == head + ExcludedFiles(rest);
      forall i | 1 <= i < |globs| ensures globs[i] == rest[i - 1] { }
      if StartsWith(globs[0], "!./") {
        assert globs[0] == "!./" + globs[0][3..];
      }
    }
  }

  lemma {:induction false} ExcludedNegations(filteredFiles: seq<string>)
    ensures ExcludedFiles(seq(|filteredFiles|, i requires 0 <= i < |filteredFiles| => "!./" + filteredFiles[i])) == filteredFiles
    decreases |filteredFiles|
  {
    var negated := seq(|filteredFiles|, i requires 0 <= i < |filteredFiles| => "!./" + filteredFiles[i]);
    if filteredFiles != [] {
      var rest := filteredFiles[1..];
      assert negated[1..] == seq(|rest|, i requires 0 <= i < |rest| => "!./" + rest[i]);
      ExcludedNegations(rest);
      assert StartsWith(negated[0], "!./") && negated[0][3..] == filteredFiles[0];
      assert filteredFiles == [filteredFiles[0]] + rest;
    }
  }

  /** The globs exclude exactly the filtered files, in order, and nothing
      else. */
  lemma ExcludedFilesAreFiltered(filteredFiles: seq<string>)
    ensures ExcludedFiles(CopySourceGlobs(filteredFiles)) == filteredFiles
  {
    var globs := CopySourceGlobs(filteredFiles);
    assert globs[0][0] == '.' && "!./"[0] == '!';
    assert !StartsWith(globs[0], "!./");
    assert globs[1..] == seq(|filteredFiles|, i requires 0 <= i < |filteredFiles| => "!./" + filteredFiles[i]);
    ExcludedNegations(filteredFiles);
  }


  /** The js source directory the script copies from. */
  function SourceCwd(m: MavenProperties): string {
    Join([m.projectRootPath, m.sourceDirectory, m.jsSourceDirectory])
  }

  /** `watchedFiles`. */
  function WatchedFiles(m: MavenProperties): string {
    SourceCwd(m) + "/**"
  }

  /** The properties the goal writes for a project. */
  function PropertiesOf(d: Directories, targetPath: string, filteredFiles: seq<string>): MavenProperties {
    MavenProperties(d.basedir, d.sourceDirectory, d.jsSourceDirectory, targetPath, filteredFiles)
  }

  /** The default source directories are in normal form. */
  lemma DefaultDirectoriesArePlain()
    ensures PlainRelative(DefaultSourceDirectory) && PlainRelative(DefaultJsSourceDirectory)
  {
    ThreeSegments("src", "main", "webapp");
    assert DefaultSourceDirectory == "src" + "/" + ("main" + "/" + "webapp");
    OneSegment(DefaultJsSourceDirectory);
  }

  lemma ThreeSegments(x: string, y: string, z: string)
    requires Name(x) && Name(y) && Name(z)
    ensures PlainRelative(x + "/" + (y + "/" + z))
  {
    OneSegment(x);
    OneSegment(y);
    OneSegment(z);
    PlainAppend(y, z);
    PlainAppend(x, y + "/" + z);
  }

  /** A name without '/' other than "." and ".." is a relative path in
      normal form. */
  lemma OneSegment(name: string)
    requires Name(name)
    ensures PlainRelative(name)
  {
    SegmentsWithoutSlash(name);
  }

  /** For a base directory and source directories in normal form the script
      watches the same files as the goal's corrected `filesToWatch`. */
  lemma WatchedFilesAgreeWithGoal(d: Directories, targetPath: string, filteredFiles: seq<string>)
    requires PlainPath(d.basedir) && PlainRelative(d.sourceDirectory) && PlainRelative(d.jsSourceDirectory)
    ensures WatchedFiles(PropertiesOf(d, targetPath, filteredFiles))
         == CreateResources.FilesToWatch(CreateResources.PathToWatchDirectory(d, "/"), "/")
  {
    var parts := [d.basedir, d.sourceDirectory, d.jsSourceDirectory];
    assert PlainParts(parts);
    JoinPlain(parts);
    assert parts[1..] == [d.sourceDirectory, d.jsSourceDirectory];
    assert parts[1..][1..] == [d.jsSourceDirectory];
    assert Unsplit(parts[1..]) == d.sourceDirectory + "/" + d.jsSourceDirectory;
    assert Unsplit(parts) == d.basedir + "/" + (d.sourceDirectory + "/" + d.jsSourceDirectory);
  }

  /** With the default directories the script watches the js source
      directory while the `filesToWatch` written by the goal as written
      points elsewhere. */
  lemma WatchedFilesDisagreeWithGoalAsWritten(basedir: string, gruntBuildDirectory: string, targetPath: string)
    requires PlainPath(basedir)
    ensures var d := Directories(basedir, DefaultSourceDirectory, DefaultJsSourceDirectory, gruntBuildDirectory);
      WatchedFiles(PropertiesOf(d, targetPath, []))
        != CreateResources.FilesToWatch(CreateResources.PathToWatchDirectoryAsWritten(d, "/"), "/")
  {
    var d := Directories(basedir, DefaultSourceDirectory, DefaultJsSourceDirectory, gruntBuildDirectory);
    DefaultDirectoriesArePlain();
    WatchedFilesAgreeWithGoal(d, targetPath, []);
    CreateResources.WatchDirectoryAsWrittenMissesSeparator(basedir, gruntBuildDirectory);
    assert |CreateResources.PathToWatchDirectoryAsWritten(d, "/")| != |CreateResources.PathToWatchDirectory(d, "/")|;
  }

  /** `path.join` collapses a leading '/' of a later argument into the
      separator: joining `x` with "/y" gives "x/y". */
  lemma JoinCollapsesSlash(x: string, y: string)
    requires Name(x) && Name(y)
    ensures Join([x, "/" + y]) == x + "/" + y
  {
    var second := "/" + y;
    JoinPair(x, second);
    SlashSegments(x, y);
    assert Resolve([], [x, "", y], true) == [x, y] by {
      ResolveSlashSteps(x, y);
    }
    assert Unsplit([x, y]) == x + "/" + y by {
      assert [x, y][1..] == [y];
    }
    var joined := x + "/" + second;
    assert joined[0] == x[0] && joined[|joined| - 1] == y[|y| - 1];
    NormalizeInner(joined);
  }

  /** "x//y" splits into `x`, an empty segment and `y`. */
  lemma SlashSegments(x: string, y: string)
    requires Name(x) && Name(y)
    ensures Segments(x + "/" + ("/" + y)) == [x, "", y]
  {
    var second := "/" + y;
    SegmentsWithoutSlash(x);
    SegmentsWithoutSlash(y);
    SegmentsAppend(x, second);
    assert second[0] == '/' && second[1..] == y;
  }

  /** The empty segment of "x//y" is dropped. */
  lemma ResolveSlashSteps(x: string, y: string)
    requires Name(x) && Name(y)
    ensures Resolve([], [x, "", y], true) == [x, y]
  {
    var s0 := [x, "", y];
    var s1 := s0[1..];
    var s2 := s1[1..];
    assert s1 == ["", y] && s2 == [y] && s2[1..] == [];
    assert [x] + [y] == [x, y];
    assert Resolve([x, y], s2[1..], true) == [x, y];
    assert Resolve([x], s2, true) == [x, y];
    assert Resolve([x], s1, true) == [x, y];
    assert [] + [x] == [x];
  }

  /** `path.join` drops "." segments and lets ".." drop the segment before
      it: joining `x` with "./y/../z" gives "x/z". */
  lemma JoinResolvesDots(x: string, y: string, z: string)
    requires Name(x) && Name(y) && Name(z)
    ensures Join([x, "./" + y + "/../" + z]) == x + "/" + z
  {
    var second := "./" + y + "/../" + z;
    JoinPair(x, second);
    DotsSegments(x, y, z);
    ResolveSteps(x, y, z);
    assert Unsplit([x, z]) == x + "/" + z by {
      assert [x, z][1..] == [z];
    }
    var joined := x + "/" + second;
    assert joined[0] == x[0] && joined[|joined| - 1] == z[|z| - 1];
    NormalizeInner(joined);
  }

  /** `path.join` of two non-empty arguments normalises them joined with '/'. */
  lemma JoinPair(x: string, y: string)
    requires x != "" && y != ""
    ensures Join([x, y]) == Normalize(x + "/" + y)
  {
    var parts := [x, y];
    assert NonEmpty(parts) == parts by {
      assert parts[1..] == [y];
      assert NonEmpty(parts[1..]) == [y] + NonEmpty([]);
    }
    assert Unsplit(parts) == x + "/" + y by {
      assert parts[1..] == [y];
    }
  }

  /** A relative path that does not end with '/' normalises to its resolved
      segments, or to "." when none is left. */
  lemma NormalizeInner(p: string)
    requires p != "" && p[0] != '/' && p[|p| - 1] != '/'
    ensures var body := Unsplit(Resolve([], Segments(p), true));
      Normalize(p) == if body == "" then "." else body
  {
    var body := Unsplit(Resolve([], Segments(p), true));
    assert body != "" ==> Normalize(p) == "" + body + "";
  }

  /** "x/./y/../z" splits into its five segments. */
  lemma DotsSegments(x: string, y: string, z: string)
    requires Name(x) && Name(y) && Name(z)
    ensures Segments(x + "/" + ("./" + y + "/../" + z)) == [x, ".", y, "..", z]
  {
    var dot, dots := ".", "..";
    assert "./" + y + "/../" + z == dot + "/" + (y + "/" + (dots + "/" + z));
    FiveSegments(x, dot, y, dots, z);
  }

  /** Five names without '/' joined with '/' split back into those names. */
  lemma FiveSegments(a: string, b: string, c: string, d: string, e: string)
    requires '/' !in a && '/' !in b && '/' !in c && '/' !in d && '/' !in e
    ensures Segments(a + "/" + (b + "/" + (c + "/" + (d + "/" + e)))) == [a, b, c, d, e]
  {
    SegmentsWithoutSlash(a);
    SegmentsWithoutSlash(b);
    SegmentsWithoutSlash(c);
    SegmentsWithoutSlash(d);
    SegmentsWithoutSlash(e);
    SegmentsAppend(d, e);
    SegmentsAppend(c, d + "/" + e);
    SegmentsAppend(b, c + "/" + (d + "/" + e));
    SegmentsAppend(a, b + "/" + (c + "/" + (d + "/" + e)));
  }

  /** A segment name that normalisation keeps: not empty, "." or "..", and
      without '/'. */
  predicate Name(s: string) {
    s != "" && s != "." && s != ".." && '/' !in s
  }

  /** In "x/./y/../z" the "." is dropped and ".." drops `y`. */
  lemma ResolveSteps(x: string, y: string, z: string)
    requires Name(x) && Name(y) && Name(z)
    ensures Resolve([], [x, ".", y, "..", z], true) == [x, z]
  {
    var s0 := [x, ".", y, "..", z];
    var s1 := s0[1..];
    var s2 := s1[1..];
    var s3 := s2[1..];
    var s4 := s3[1..];
    assert s1 == [".", y, "..", z] && s2 == [y, "..", z] && s3 == ["..", z] && s4 == [z] && s4[1..] == [];
    assert Resolve([x, z], s4[1..], true) == [x, z];
    assert [x] + [z] == [x, z];
    assert Resolve([x], s4, true) == [x, z];
    assert [x, y][..1] == [x];
    assert Resolve([x, y], s3, true) == [x, z];
    assert [x] + [y] == [x, y];
    assert Resolve([x], s2, true) == [x, z];
    assert Resolve([x], s1, true) == [x, z];
    assert [] + [x] == [x];
  }

  /** `path.join` with nothing to join gives ".". */
  lemma JoinNothing()
    ensures Join(["", ""]) == "."
  {
    var parts := ["", ""];
    assert NonEmpty(parts[1..]) == [] + NonEmpty([]);
  }

  /** The copy task configurations the script sets: the js sources except
      the filtered files into the grunt build directory, the distribution
      patterns into the distribution directory, and that directory into the
      war's js source directory below the Maven target. */
  function CopyTask(name: string, m: MavenProperties, w: WorkflowProperties): (r: Option<CopyFiles>)
    ensures r.Some? <==> name == SrcToGruntTarget || name == GruntTargetToDist || name == DistToMavenTarget
    ensures name == SrcToGruntTarget ==>
      && r.value.cwd == Some(SourceCwd(m)) && r.value.dest == "./"
      && r.value.src == CopySourceGlobs(m.filteredFiles) && ExcludedFiles(r.value.src) == m.filteredFiles
    ensures name == GruntTargetToDist ==>
      r.value == CopyFiles(None, w.distFilePatterns, w.distDirectory)
    ensures name == DistToMavenTarget ==>
      r.value == CopyFiles(Some(w.distDirectory), [CopyAll], Join([m.targetPath, w.warName, m.jsSourceDirectory]))
  {
    if name == SrcToGruntTarget then
      ExcludedFilesAreFiltered(m.filteredFiles);
      Some(CopyFiles(Some(SourceCwd(m)), CopySourceGlobs(m.filteredFiles), "./"))
    else if name == GruntTargetToDist then Some(CopyFiles(None, w.distFilePatterns, w.distDirectory))
    else if name == DistToMavenTarget then
      Some(CopyFiles(Some(w.distDirectory), [CopyAll], Join([m.targetPath, w.warName, m.jsSourceDirectory])))
    else None
  }

  /** Grunt leaves alone exactly the resources Maven filters: the list the
      goal serialises is read back unchanged, and the source copy the
      `maven-watch` task runs copies from the js source directory and
      excludes every entry, provided no entry contains a double quote. */
  lemma GruntSkipsMavenFilteredFiles(d: Directories, targetPath: string, filteredResources: seq<string>,
                                     w: WorkflowProperties)
    requires CreateResources.NoQuotes(filteredResources)
    ensures var read := CreateResources.ParseJsonArray(CreateResources.JsonArray(filteredResources));
      && read == Some(filteredResources)
      && var copy := CopyTask(SrcToGruntTarget, PropertiesOf(d, targetPath, read.value), w).value;
      && copy.cwd == Some(Join([d.basedir, d.sourceDirectory, d.jsSourceDirectory]))
      && ExcludedFiles(copy.src) == filteredResources
  {
    CreateResources.JsonArrayRoundTrip(filteredResources);
  }

  /** The properties file the goal writes hands the script the goal's own
      base directory, target, directories and filtered files: for values
      without backslashes, the filters hold the properties the script reads. */
  lemma InnerPropertiesFeedScript(d: Directories, separator: string, watchDirectory: string, targetPath: string,
                                  filteredResources: seq<string>)
    requires CreateResources.NoQuotes(filteredResources)
    requires '\\' !in d.basedir && '\\' !in targetPath
    requires '\\' !in d.sourceDirectory && '\\' !in d.jsSourceDirectory
    requires '\\' !in CreateResources.JsonArray(filteredResources)
    ensures var r := CreateResources.InnerPropertiesResource(d, separator, watchDirectory, targetPath,
                                                              CreateResources.JsonArray(filteredResources));
      var m := PropertiesOf(d, targetPath, filteredResources);
      && r.filters[2] == Filter("projectRootPath", m.projectRootPath)
      && r.filters[3] == Filter("targetPath", m.targetPath)
      && r.filters[4] == Filter("sourceDirectory", m.sourceDirectory)
      && r.filters[5] == Filter("jsSourceDirectory", m.jsSourceDirectory)
      && r.filters[6].name == "filteredFiles"
      && CreateResources.ParseJsonArray(r.filters[6].value) == Some(m.filteredFiles)
  {
    MakeFilterKeepsPlainValue("projectRootPath", d.basedir);
    MakeFilterKeepsPlainValue("targetPath", targetPath);
    MakeFilterKeepsPlainValue("sourceDirectory", d.sourceDirectory);
    MakeFilterKeepsPlainValue("jsSourceDirectory", d.jsSourceDirectory);
    MakeFilterKeepsPlainValue("filteredFiles", CreateResources.JsonArray(filteredResources));
    CreateResources.JsonArrayRoundTrip(filteredResources);
  }

  /** The tasks `grunt.task.run` queues for a registered workflow task. */
  function TaskQueue(task: string): (r: Option<seq<string>>)
    ensures r.Some? <==> task == "maven" || task == "maven-watch"
    ensures task == "maven" ==> r == Some([GruntTargetToDist, DistToMavenTarget])
    ensures task == "maven-watch" ==> r == Some([SrcToGruntTarget])
  {
    if task == "maven" then Some([GruntTargetToDist, DistToMavenTarget])
    else if task == "maven-watch" then Some([SrcToGruntTarget])
    else None
  }

  /** Every queued task has a copy configuration by the time it runs, and
      the `maven` task's copies chain: the first copies into the directory
      the second copies from. */
  lemma QueuedTasksAreConfigured(task: string, m: MavenProperties, w: WorkflowProperties)
    requires TaskQueue(task).Some?
    ensures forall t :: t in TaskQueue(task).value ==> CopyTask(t, m, w).Some?
    ensures task == "maven" ==>
      CopyTask(GruntTargetToDist, m, w).value.dest == CopyTask(DistToMavenTarget, m, w).value.cwd.value
  {
  }
}
