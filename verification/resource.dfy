/** `Resource`: a classpath template copied to a target path after every
    registered filter has been applied. `copy` leaves an existing target
    alone; `copyAndOverwrite` always writes. The file system is a map from
    path to contents. */
module Resources {
  import opened Wrappers
  import opened Filters

  datatype Resource = Resource(resourceName: string, filters: seq<Filter>)

  type FileMap = map<string, string>

  /** The only failure: an `IOException`, reported with the resource name and
      the target path. */
  datatype ResourceCreationException = ResourceCreationException(resourceName: string, targetPath: string)

  /** `Resource.from(name, log)`: no filters yet. */
  function From(resourceName: string): (r: Resource)
    ensures r.resourceName == resourceName && r.filters == []
  {
    Resource(resourceName, [])
  }

  /** `withFilter(placeholder, value)`: one more filter, same resource. */
  function WithFilter(r: Resource, placeholder: string, value: string): (r': Resource)
    ensures r'.resourceName == r.resourceName
    ensures |r'.filters| == |r.filters| + 1 && r'.filters[..|r.filters|] == r.filters
    ensures r'.filters[|r.filters|] == MakeFilter(placeholder, value)
  {
    r.(filters := r.filters + [MakeFilter(placeholder, value)])
  }

  /** The filters live in a `HashSet`, so they are applied in an unspecified
      order: any arrangement of exactly the registered filters. */
  predicate IsIterationOrder(r: Resource, order: seq<Filter>) {
    multiset(order) == multiset(r.filters)
  }

  /** Applies the filters one after the other, each to the previous output. */
  function ApplyAll(order: seq<Filter>, contents: string): string
    decreases |order|
  {
    if order == [] then contents else ApplyAll(order[1..], ApplyFilter(order[0], contents))
  }

  /** Applying a list of filters is applying its first part, then the rest. */
  lemma {:induction false} ApplyAllAppend(a: seq<Filter>, b: seq<Filter>, contents: string)
    ensures ApplyAll(a + b, contents) == ApplyAll(b, ApplyAll(a, contents))
    decreases |a|
  {
    if a != [] {
      assert (a + b)[0] == a[0];
      assert (a + b)[1..] == a[1..] + b;
      ApplyAllAppend(a[1..], b, ApplyFilter(a[0], contents));
    } else {
      assert a + b == b;
    }
  }

  /** A single filter is applied once. */
  lemma ApplyAllSingle(f: Filter, contents: string)
    ensures ApplyAll([f], contents) == ApplyFilter(f, contents)
  {
    assert [f][1..] == [];
  }

  /** With one registered filter there is only one iteration order. */
  lemma SingleIterationOrder(r: Resource, order: seq<Filter>)
    requires IsIterationOrder(r, order) && |r.filters| == 1
    ensures order == r.filters
  {
    assert r.filters == [r.filters[0]];
    assert multiset(order) == multiset{r.filters[0]};
    assert |order| == 1;
    assert order[0] in multiset(order);
    assert order == [order[0]];
  }

  /** `filter(contents)` in a given iteration order. */
  function FilterContents(r: Resource, order: seq<Filter>, contents: string): (s: string)
    requires IsIterationOrder(r, order)
    ensures r.filters == [] ==> s == contents
    ensures |r.filters| == 1 ==> s == ApplyFilter(r.filters[0], contents)
  {
    if |r.filters| == 1 then
      SingleIterationOrder(r, order);
      assert r.filters == [r.filters[0]];
      ApplyAllSingle(r.filters[0], contents);
      ApplyAll(order, contents)
    else
      ApplyAll(order, contents)
  }

  /** `copyResource(targetPath, overwrite)`: reads the template (`read` is
      None when reading fails), filters it, and writes it when the target is
      missing or `overwrite` is set; a failing write (`writeFails`) is
      reported like a failing read. */
  function CopyResource(files: FileMap, r: Resource, order: seq<Filter>, read: Option<string>,
                        writeFails: bool, targetPath: string, overwrite: bool)
    : (result: Result<FileMap, ResourceCreationException>)
    requires IsIterationOrder(r, order)
    ensures result.Failure? <==> read.None? || (writeFails && (overwrite || targetPath !in files))
    ensures result.Failure? ==> result.error == ResourceCreationException(r.resourceName, targetPath)
    ensures result.Success? && (overwrite || targetPath !in files) ==>
      result.value == files[targetPath := FilterContents(r, order, read.value)]
    ensures result.Success? && !overwrite && targetPath in files ==> result.value == files
  {
    match read
    case None => Failure(ResourceCreationException(r.resourceName, targetPath))
    case Some(raw) =>
      var contents := FilterContents(r, order, raw);
      if targetPath !in files || overwrite then
        if writeFails then Failure(ResourceCreationException(r.resourceName, targetPath))
        else Success(files[targetPath := contents])
      else
        Success(files)
  }

  /** `copy(to)`: an existing target is kept as it is; a missing one gets
      the filtered template. */
  function Copy(files: FileMap, r: Resource, order: seq<Filter>, read: Option<string>,
                writeFails: bool, to: string): (result: Result<FileMap, ResourceCreationException>)
    requires IsIterationOrder(r, order)
    ensures result.Failure? <==> read.None? || (writeFails && to !in files)
    ensures result.Success? && to in files ==> result.value == files
    ensures result.Success? && to !in files ==> result.value == files[to := FilterContents(r, order, read.value)]
  {
    CopyResource(files, r, order, read, writeFails, to, false)
  }

  /** `copyAndOverwrite(to)`: the target gets the filtered template
      whether or not it exists. */
  function CopyAndOverwrite(files: FileMap, r: Resource, order: seq<Filter>, read: Option<string>,
                            writeFails: bool, to: string): (result: Result<FileMap, ResourceCreationException>)
    requires IsIterationOrder(r, order)
    ensures result.Failure? <==> read.None? || writeFails
    ensures result.Success? ==> result.value == files[to := FilterContents(r, order, read.value)]
  {
    CopyResource(files, r, order, read, writeFails, to, true)
  }

  /** Copying never touches any path but the target, and the target ends up
      holding either its old contents or the filtered template. */
  lemma CopyFrame(files: FileMap, r: Resource, order: seq<Filter>, raw: string, to: string, overwrite: bool)
    requires IsIterationOrder(r, order)
    ensures var result := CopyResource(files, r, order, Some(raw), false, to, overwrite);
      && result.Success?
      && result.value.Keys == files.Keys + {to}
      && (forall p :: p in files && p != to ==> result.value[p] == files[p])
      && (result.value[to] == FilterContents(r, order, raw) || (to in files && result.value[to] == files[to]))
  {
  }

  /** A second `copy` changes nothing, a `copy` after `copyAndOverwrite`
      keeps the overwritten file, and a second `copyAndOverwrite` writes
      the same contents again. */
  lemma CopyIdempotent(files: FileMap, r: Resource, order: seq<Filter>, raw: string, to: string)
    requires IsIterationOrder(r, order)
    ensures var once := Copy(files, r, order, Some(raw), false, to);
      once.Success? && Copy(once.value, r, order, Some(raw), false, to) == once
    ensures var over := CopyAndOverwrite(files, r, order, Some(raw), false, to);
      && over.Success?
      && Copy(over.value, r, order, Some(raw), false, to) == over
      && CopyAndOverwrite(over.value, r, order, Some(raw), false, to) == over
  {
    var over := CopyAndOverwrite(files, r, order, Some(raw), false, to);
    assert over.value[to := FilterContents(r, order, raw)] == over.value;
  }
}
