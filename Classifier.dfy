/**
 * `scanProjectStructure` of index.js: walks the project with the default
 * ignored list, infers the language mix from file extensions and sorts the
 * files into four buckets by directory markers.
 */
module Classifier {
  import opened Seqs
  import opened Strings
  import opened Walker

  /** The object `scanProjectStructure` returns. */
  datatype ProjectStructure = ProjectStructure(
    fileTypes: seq<string>,
    pages: seq<string>,
    components: seq<string>,
    apiRoutes: seq<string>,
    styles: seq<string>)

  const PagesMarker := "/pages/"
  const ComponentsMarker := "/components/"
  const ApiRoutesMarker := "/pages/api/"
  const StylesMarker := "/styles/"

  /** `f.endsWith(".ts") ? "ts" : "js"`. */
  function FileKind(f: string): string {
    if EndsWith(f, ".ts") then "ts" else "js"
  }

  /** `[...new Set(files.map(FileKind))]`. */
  function FileTypes(files: seq<string>): (r: seq<string>)
    ensures NoDuplicates(r)
    ensures forall t | t in r :: t == "ts" || t == "js"
    ensures |r| <= 2
    ensures "ts" in r <==> exists f | f in files :: EndsWith(f, ".ts")
    ensures "js" in r <==> exists f | f in files :: !EndsWith(f, ".ts")
    ensures files != [] ==> r != [] && r[0] == FileKind(files[0])
  {
    var r := Distinct(Map(files, FileKind));
    KindsOfFiles(files);
    AtMostTwoKinds(r);
    r
  }

  lemma KindsOfFiles(files: seq<string>)
    ensures forall t | t in Map(files, FileKind) :: t == "ts" || t == "js"
    ensures "ts" in Map(files, FileKind) <==> exists f | f in files :: EndsWith(f, ".ts")
    ensures "js" in Map(files, FileKind) <==> exists f | f in files :: !EndsWith(f, ".ts")
  {
    var kinds := Map(files, FileKind);
    forall f | f in files ensures FileKind(f) in kinds {
      var i :| 0 <= i < |files| && files[i] == f;
      assert kinds[i] == FileKind(f);
    }
    forall t | t in kinds ensures exists f | f in files :: t == FileKind(f) {
      var i :| 0 <= i < |kinds| && kinds[i] == t;
      assert files[i] in files;
    }
  }

  lemma AtMostTwoKinds(r: seq<string>)
    requires NoDuplicates(r)
    requires forall t | t in r :: t == "ts" || t == "js"
    ensures |r| <= 2
  {
    var kinds := set t | t in r;
    DistinctCount(r);
    if "ts" in kinds && "js" in kinds {
      assert kinds == {"ts", "js"};
    } else if "ts" in kinds {
      assert kinds == {"ts"};
    } else if "js" in kinds {
      assert kinds == {"js"};
    } else {
      assert kinds == {};
    }
  }

  /**
   * `files.filter((f) => f.includes(marker)).map((f) => f.replace(projectPath, ""))`.
   */
  function Bucket(files: seq<string>, marker: string, projectPath: string): (r: seq<string>)
    ensures |r| <= |files|
    ensures IsSubseq(r, Map(files, (f: string) => RemoveFirst(f, projectPath)))
    ensures forall x ::
      x in r <==> exists f | f in files :: Contains(f, marker) && x == RemoveFirst(f, projectPath)
  {
    var strip := (f: string) => RemoveFirst(f, projectPath);
    var kept := Filter(files, (f: string) => Contains(f, marker));
    MapKeepsSubseq(kept, files, strip);
    var r := Map(kept, strip);
    MapMembers(kept, strip);
    r
  }

  /** The structure computed from the walked `files` of the project at `projectPath`. */
  function Structure(files: seq<string>, projectPath: string): ProjectStructure {
    ProjectStructure(
      FileTypes(files),
      Bucket(files, PagesMarker, projectPath),
      Bucket(files, ComponentsMarker, projectPath),
      Bucket(files, ApiRoutesMarker, projectPath),
      Bucket(files, StylesMarker, projectPath))
  }

  /** `scanProjectStructure(projectPath)` over the listing `entries` of the project directory. */
  method ScanProjectStructure(projectPath: string, entries: seq<Entry>) returns (s: ProjectStructure)
    ensures s == Structure(Walk(projectPath, entries, DefaultIgnored), projectPath)
    ensures forall x | x in s.pages + s.components + s.apiRoutes + s.styles ::
      StartsWith(x, "/") && projectPath + x in Walk(projectPath, entries, DefaultIgnored)
    ensures var files := Walk(projectPath, entries, DefaultIgnored);
      Map(s.pages, (x: string) => projectPath + x) == Filter(files, (f: string) => Contains(f, PagesMarker)) &&
      Map(s.components, (x: string) => projectPath + x) == Filter(files, (f: string) => Contains(f, ComponentsMarker)) &&
      Map(s.apiRoutes, (x: string) => projectPath + x) == Filter(files, (f: string) => Contains(f, ApiRoutesMarker)) &&
      Map(s.styles, (x: string) => projectPath + x) == Filter(files, (f: string) => Contains(f, StylesMarker))
  {
    var files := GetFilesRecursively(projectPath, entries, DefaultIgnored);
    s := Structure(files, projectPath);
    BucketsOfWalkAreRelative(projectPath, entries, DefaultIgnored);
    WalkResultsAdmissible(projectPath, entries, DefaultIgnored);
    BucketRestoresFilter(files, PagesMarker, projectPath);
    BucketRestoresFilter(files, ComponentsMarker, projectPath);
    BucketRestoresFilter(files, ApiRoutesMarker, projectPath);
    BucketRestoresFilter(files, StylesMarker, projectPath);
  }

  /**
   * Every path containing `/pages/api/` also contains `/pages/`, and both
   * buckets strip the project path the same way, so the API routes are a
   * subsequence of the pages.
   */
  lemma ApiRoutesWithinPages(files: seq<string>, projectPath: string)
    ensures IsSubseq(Structure(files, projectPath).apiRoutes, Structure(files, projectPath).pages)
  {
    forall f: string | Contains(f, ApiRoutesMarker) ensures Contains(f, PagesMarker) {
      var i: nat :| i <= |f| && OccursAt(f, ApiRoutesMarker, i);
      assert f[i..i + |PagesMarker|] == f[i..i + |ApiRoutesMarker|][..|PagesMarker|];
      assert OccursAt(f, PagesMarker, i);
    }
    var api := Filter(files, (f: string) => Contains(f, ApiRoutesMarker));
    var pages := Filter(files, (f: string) => Contains(f, PagesMarker));
    FilterWeakerKeepsMore(files, (f: string) => Contains(f, ApiRoutesMarker), (f: string) => Contains(f, PagesMarker));
    MapKeepsSubseq(api, pages, (f: string) => RemoveFirst(f, projectPath));
  }

  /**
   * For the files the walker returns from `projectPath`, stripping the
   * project path leaves a project-relative path starting with '/', and
   * putting the project path back in front gives the walked file.
   */
  lemma BucketsOfWalkAreRelative(projectPath: string, entries: seq<Entry>, ignored: seq<string>)
    ensures var s := Structure(Walk(projectPath, entries, ignored), projectPath);
      forall x | x in s.pages + s.components + s.apiRoutes + s.styles ::
        StartsWith(x, "/") && projectPath + x in Walk(projectPath, entries, ignored)
  {
    var files := Walk(projectPath, entries, ignored);
    WalkResultsAdmissible(projectPath, entries, ignored);
    BucketOfWalkIsRelative(files, PagesMarker, projectPath);
    BucketOfWalkIsRelative(files, ComponentsMarker, projectPath);
    BucketOfWalkIsRelative(files, ApiRoutesMarker, projectPath);
    BucketOfWalkIsRelative(files, StylesMarker, projectPath);
  }

  lemma BucketOfWalkIsRelative(files: seq<string>, marker: string, projectPath: string)
    requires forall f | f in files :: StartsWith(f, projectPath + "/")
    ensures forall x | x in Bucket(files, marker, projectPath) :: StartsWith(x, "/") && projectPath + x in files
  {
    forall x | x in Bucket(files, marker, projectPath) ensures StartsWith(x, "/") && projectPath + x in files {
      var f :| f in files && Contains(f, marker) && x == RemoveFirst(f, projectPath);
      StripProjectPath(f, projectPath);
    }
  }

  /**
   * For files below the project, putting the project path back in front of
   * each bucket entry gives exactly the marker-containing files, each
   * occurrence in its place: no file is merged, lost or reordered.
   */
  lemma BucketRestoresFilter(files: seq<string>, marker: string, projectPath: string)
    requires forall f | f in files :: StartsWith(f, projectPath + "/")
    ensures Map(Bucket(files, marker, projectPath), (x: string) => projectPath + x)
         == Filter(files, (f: string) => Contains(f, marker))
  {
    var kept := Filter(files, (f: string) => Contains(f, marker));
    var bucket := Bucket(files, marker, projectPath);
    var restored := Map(bucket, (x: string) => projectPath + x);
    assert |restored| == |kept|;
    forall i | 0 <= i < |kept| ensures restored[i] == kept[i] {
      assert kept[i] in kept;
      StripProjectPath(kept[i], projectPath);
    }
  }

  /** A path below the project loses exactly the project path, keeping its leading '/'. */
  lemma StripProjectPath(f: string, projectPath: string)
    requires StartsWith(f, projectPath + "/")
    ensures StartsWith(RemoveFirst(f, projectPath), "/") && projectPath + RemoveFirst(f, projectPath) == f
  {
    assert f[..|projectPath|] == (projectPath + "/")[..|projectPath|] == projectPath;
    assert StartsWith(f, projectPath);
    assert f[|projectPath|] == '/';
    assert f == projectPath + f[|projectPath|..];
  }
}
