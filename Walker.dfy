/**
 * The recursive file walker `getFilesRecursively` of index.js, over a
 * directory tree given as a value: each directory lists its entries in the
 * order `readdirSync` returns them, and `statSync(...).isDirectory()` is
 * whether the entry is a `Dir`.
 */
module Walker {
  import opened Seqs
  import opened Strings

  /** An entry of a directory listing: a directory with its own entries, or anything else. */
  datatype Entry = File(name: string) | Dir(name: string, children: seq<Entry>)

  /** The default `ignoredPaths` of `getFilesRecursively`. */
  const DefaultIgnored: seq<string> := ["node_modules", ".git", ".next", "dist", "coverage", ".vscode"]

  /** `path.join(dir, name)`, without normalisation. */
  function PathJoin(dir: string, name: string): string {
    dir + "/" + name
  }

  /** `ignoredPaths.some((ignored) => path.includes(ignored))`: a substring test on the joined path string. */
  predicate IsIgnored(path: string, ignored: seq<string>) {
    exists k | 0 <= k < |ignored| :: Contains(path, ignored[k])
  }

  /** The walker's test that skips an entry: an ignored substring in its joined path, or a dot name. */
  predicate Skipped(path: string, name: string, ignored: seq<string>) {
    IsIgnored(path, ignored) || StartsWith(name, ".")
  }

  /** The files the walker returns for the entries of directory `dir`, in listing order. */
  function Walk(dir: string, entries: seq<Entry>, ignored: seq<string>): seq<string>
    decreases entries
  {
    if entries == [] then []
    else WalkEntry(dir, entries[0], ignored) + Walk(dir, entries[1..], ignored)
  }

  /** The files the walker returns for one entry of directory `dir`. */
  function WalkEntry(dir: string, e: Entry, ignored: seq<string>): seq<string>
    decreases e
  {
    var path := PathJoin(dir, e.name);
    if Skipped(path, e.name, ignored) then []
    else match e
      case File(_) => [path]
      case Dir(_, children) => Walk(path, children, ignored)
  }

  /**
   * `getFilesRecursively(dir, ignored)`: one pass over the listing of `dir`,
   * appending each kept file and the results of each kept sub-directory.
   */
  method GetFilesRecursively(dir: string, entries: seq<Entry>, ignored: seq<string>) returns (results: seq<string>)
    ensures results == Walk(dir, entries, ignored)
    ensures WellFormed(entries) ==> results == Visible(dir, Listing(entries), ignored)
    decreases entries
  {
    results := [];
    var i := 0;
    while i < |entries|
      invariant 0 <= i <= |entries|
      invariant Walk(dir, entries, ignored) == results + Walk(dir, entries[i..], ignored)
    {
      var e := entries[i];
      ghost var before := results;
      WalkStep(dir, entries, ignored, i);
      var filePath := PathJoin(dir, e.name);
      if IsIgnored(filePath, ignored) || StartsWith(e.name, ".") {
        // the entry is skipped
        assert WalkEntry(dir, e, ignored) == [];
      } else if e.Dir? {
        var sub := GetFilesRecursively(filePath, e.children, ignored);
        assert WalkEntry(dir, e, ignored) == sub;
        results := results + sub;
      } else {
        assert WalkEntry(dir, e, ignored) == [filePath];
        results := results + [filePath];
      }
      assert results == before + WalkEntry(dir, e, ignored);
      assert before + (WalkEntry(dir, e, ignored) + Walk(dir, entries[i + 1..], ignored))
          == results + Walk(dir, entries[i + 1..], ignored);
      i := i + 1;
    }
    assert entries[i..] == [];
    if WellFormed(entries) {
      WalkIsFilteredListing(dir, entries, ignored);
    }
  }

  /** Walking the entries from position `i` walks entry `i`, then the rest. */
  lemma WalkStep(dir: string, entries: seq<Entry>, ignored: seq<string>, i: nat)
    requires i < |entries|
    ensures Walk(dir, entries[i..], ignored) == WalkEntry(dir, entries[i], ignored) + Walk(dir, entries[i + 1..], ignored)
  {
    assert entries[i..][1..] == entries[i + 1..];
  }

  // ----- What every result satisfies -----

  /** Every returned path lies below `dir` and contains none of the ignored strings. */
  lemma {:induction false} WalkResultsAdmissible(dir: string, entries: seq<Entry>, ignored: seq<string>)
    ensures forall r | r in Walk(dir, entries, ignored) :: StartsWith(r, dir + "/") && !IsIgnored(r, ignored)
    decreases entries
  {
    if entries != [] {
      WalkEntryResultsAdmissible(dir, entries[0], ignored);
      WalkResultsAdmissible(dir, entries[1..], ignored);
    }
  }

  lemma {:induction false} WalkEntryResultsAdmissible(dir: string, e: Entry, ignored: seq<string>)
    ensures forall r | r in WalkEntry(dir, e, ignored) :: StartsWith(r, dir + "/") && !IsIgnored(r, ignored)
    decreases e
  {
    var path := PathJoin(dir, e.name);
    if !Skipped(path, e.name, ignored) {
      assert StartsWith(path, dir + "/") by {
        assert path[..|dir + "/"|] == dir + "/";
      }
      if e.Dir? {
        WalkResultsAdmissible(path, e.children, ignored);
        forall r | r in Walk(path, e.children, ignored) ensures StartsWith(r, dir + "/") {
          assert r[..|path + "/"|] == path + "/";
          assert r[..|dir + "/"|] == (path + "/")[..|dir + "/"|];
        }
      }
    }
  }

  /**
   * The substring test over-excludes: when the directory path string
   * being walked already contains an ignored string (say the project path,
   * as given or as `process.cwd()` returns it, contains `dist`), nothing
   * at all is returned.
   */
  lemma {:induction false} IgnoredRootWalksNothing(dir: string, entries: seq<Entry>, ignored: seq<string>)
    requires IsIgnored(dir, ignored)
    ensures Walk(dir, entries, ignored) == []
    decreases entries
  {
    if entries != [] {
      var k :| 0 <= k < |ignored| && Contains(dir, ignored[k]);
      ContainsInPrefix(dir, "/" + entries[0].name, ignored[k]);
      assert dir + ("/" + entries[0].name) == PathJoin(dir, entries[0].name);
      IgnoredRootWalksNothing(dir, entries[1..], ignored);
    }
  }

  /**
   * A path is returned if and only if it is `dir/rel` for a non-directory
   * at `rel` whose full path holds no ignored string and none of whose
   * segments (the file's name or any directory above it) starts with '.'.
   */
  lemma WalkFindsExactlyVisibleFiles(dir: string, entries: seq<Entry>, ignored: seq<string>)
    requires WellFormed(entries)
    ensures forall r | r in Walk(dir, entries, ignored) ::
      exists rel | rel in Listing(entries) :: r == PathJoin(dir, rel) && Keep(dir, rel, ignored)
    ensures forall rel | rel in Listing(entries) && Keep(dir, rel, ignored) ::
      PathJoin(dir, rel) in Walk(dir, entries, ignored)
  {
    WalkIsFilteredListing(dir, entries, ignored);
    var rels := Listing(entries);
    var kept := Filter(rels, (rel: string) => Keep(dir, rel, ignored));
    var paths := Visible(dir, rels, ignored);
    forall r | r in paths
      ensures exists rel | rel in rels :: r == PathJoin(dir, rel) && Keep(dir, rel, ignored)
    {
      var k :| 0 <= k < |paths| && paths[k] == r;
      assert kept[k] in kept;
    }
    forall rel | rel in rels && Keep(dir, rel, ignored) ensures PathJoin(dir, rel) in paths {
      var k :| 0 <= k < |kept| && kept[k] == rel;
      assert paths[k] == PathJoin(dir, rel);
    }
  }

  /** The returned paths keep the order in which the unfiltered tree lists its files. */
  lemma WalkKeepsListingOrder(dir: string, entries: seq<Entry>, ignored: seq<string>)
    requires WellFormed(entries)
    ensures IsSubseq(Walk(dir, entries, ignored), Map(Listing(entries), (rel: string) => PathJoin(dir, rel)))
  {
    WalkIsFilteredListing(dir, entries, ignored);
    var rels := Listing(entries);
    MapKeepsSubseq(Filter(rels, (rel: string) => Keep(dir, rel, ignored)), rels, (rel: string) => PathJoin(dir, rel));
  }

  // ----- An independent description of the result -----

  /** Every entry name, at every depth, is free of '/', as a file system guarantees. */
  predicate WellFormed(entries: seq<Entry>)
    decreases entries
  {
    forall i | 0 <= i < |entries| ::
      '/' !in entries[i].name && (entries[i].Dir? ==> WellFormed(entries[i].children))
  }

  /** The relative paths of every non-directory in the tree, in pre-order listing order, nothing skipped. */
  function Listing(entries: seq<Entry>): seq<string>
    decreases entries
  {
    if entries == [] then [] else EntryListing(entries[0]) + Listing(entries[1..])
  }

  function EntryListing(e: Entry): seq<string>
    decreases e
  {
    match e
    case File(name) => [name]
    case Dir(name, children) => Map(Listing(children), (rel: string) => name + "/" + rel)
  }

  /** Some segment of the relative path `rel` begins with '.'. */
  predicate HasDotSegment(rel: string) {
    StartsWith(rel, ".") || Contains(rel, "/.")
  }

  /** A file at `rel` below `dir` is visible when its full path holds no ignored string and no segment is a dot name. */
  predicate Keep(dir: string, rel: string, ignored: seq<string>) {
    !IsIgnored(PathJoin(dir, rel), ignored) && !HasDotSegment(rel)
  }

  /** The full paths of the visible files among `rels`, in order. */
  function Visible(dir: string, rels: seq<string>, ignored: seq<string>): seq<string> {
    Map(Filter(rels, (rel: string) => Keep(dir, rel, ignored)), (rel: string) => PathJoin(dir, rel))
  }

  /**
   * The walker prunes ignored and dot-named directories; this says that the
   * pruning loses nothing and keeps nothing extra: it returns exactly the
   * visible files of the whole tree, in listing order.
   */
  lemma {:induction false} WalkIsFilteredListing(dir: string, entries: seq<Entry>, ignored: seq<string>)
    requires WellFormed(entries)
    ensures Walk(dir, entries, ignored) == Visible(dir, Listing(entries), ignored)
    decreases entries
  {
    if entries != [] {
      var e := entries[0];
      WalkEntryIsFilteredListing(dir, e, ignored);
      WalkIsFilteredListing(dir, entries[1..], ignored);
      VisibleAppend(dir, EntryListing(e), Listing(entries[1..]), ignored);
    }
  }

  lemma {:induction false} WalkEntryIsFilteredListing(dir: string, e: Entry, ignored: seq<string>)
    requires '/' !in e.name && (e.Dir? ==> WellFormed(e.children))
    ensures WalkEntry(dir, e, ignored) == Visible(dir, EntryListing(e), ignored)
    decreases e
  {
    var path := PathJoin(dir, e.name);
    match e
    case File(name) =>
      NoDotSegmentWithoutSlash(name);
      var keep := (rel: string) => Keep(dir, rel, ignored);
      assert Filter([name], keep) == if keep(name) then [name] else [];
    case Dir(name, children) =>
      var rels := Listing(children);
      var nested := Map(rels, (rel: string) => name + "/" + rel);
      if Skipped(path, name, ignored) {
        SkippedDirectoryShowsNothing(dir, name, rels, ignored);
      } else {
        WalkIsFilteredListing(path, children, ignored);
        VisibleUnderName(dir, name, rels, ignored);
      }
  }

  /** No file below a skipped directory `name` is visible from `dir`. */
  lemma SkippedDirectoryShowsNothing(dir: string, name: string, rels: seq<string>, ignored: seq<string>)
    requires Skipped(PathJoin(dir, name), name, ignored)
    ensures Visible(dir, Map(rels, (rel: string) => name + "/" + rel), ignored) == []
  {
    var path := PathJoin(dir, name);
    var nested := Map(rels, (rel: string) => name + "/" + rel);
    forall rel | rel in nested ensures !Keep(dir, rel, ignored) {
      var k :| 0 <= k < |rels| && nested[k] == rel;
      assert PathJoin(dir, rel) == path + "/" + rels[k];
      if IsIgnored(path, ignored) {
        var j :| 0 <= j < |ignored| && Contains(path, ignored[j]);
        ContainsInPrefix(path, "/" + rels[k], ignored[j]);
        assert path + ("/" + rels[k]) == PathJoin(dir, rel);
      } else {
        assert rel[..1] == name[..1];
      }
    }
    FilterNone(nested, (rel: string) => Keep(dir, rel, ignored));
  }

  lemma {:induction false} VisibleAppend(dir: string, a: seq<string>, b: seq<string>, ignored: seq<string>)
    ensures Visible(dir, a + b, ignored) == Visible(dir, a, ignored) + Visible(dir, b, ignored)
  {
    var keep := (rel: string) => Keep(dir, rel, ignored);
    FilterAppend(a, b, keep);
    MapAppend(Filter(a, keep), Filter(b, keep), (rel: string) => PathJoin(dir, rel));
  }

  /** Descending into a kept directory `name` and walking from there agrees with filtering its files from `dir`. */
  lemma {:induction false} VisibleUnderName(dir: string, name: string, rels: seq<string>, ignored: seq<string>)
    requires '/' !in name && !StartsWith(name, ".")
    ensures Visible(dir, Map(rels, (rel: string) => name + "/" + rel), ignored)
         == Visible(PathJoin(dir, name), rels, ignored)
  {
    var prefix := (rel: string) => name + "/" + rel;
    if rels != [] {
      var r := rels[0];
      assert Map(rels, prefix) == [prefix(r)] + Map(rels[1..], prefix);
      assert rels == [r] + rels[1..];
      VisibleAppend(dir, [prefix(r)], Map(rels[1..], prefix), ignored);
      VisibleAppend(PathJoin(dir, name), [r], rels[1..], ignored);
      VisibleUnderName(dir, name, rels[1..], ignored);
      VisibleOneUnderName(dir, name, r, ignored);
    }
  }

  /** `VisibleUnderName` for a single file `rel`. */
  lemma VisibleOneUnderName(dir: string, name: string, rel: string, ignored: seq<string>)
    requires '/' !in name && !StartsWith(name, ".")
    ensures Visible(dir, [name + "/" + rel], ignored) == Visible(PathJoin(dir, name), [rel], ignored)
  {
    var nested := name + "/" + rel;
    assert PathJoin(dir, nested) == PathJoin(PathJoin(dir, name), rel);
    DotSegmentAfterName(name, rel);
    assert Keep(dir, nested, ignored) == Keep(PathJoin(dir, name), rel, ignored);
    var keepOuter := (r: string) => Keep(dir, r, ignored);
    var keepInner := (r: string) => Keep(PathJoin(dir, name), r, ignored);
    assert Filter([nested], keepOuter) == if keepOuter(nested) then [nested] else [];
    assert Filter([rel], keepInner) == if keepInner(rel) then [rel] else [];
  }

  lemma NoDotSegmentWithoutSlash(name: string)
    requires '/' !in name
    ensures HasDotSegment(name) <==> StartsWith(name, ".")
  {
    forall i: nat | i + 2 <= |name| ensures !OccursAt(name, "/.", i) {
      assert name[i] in name;
    }
  }

  /** In `name/rel`, a dot segment is either `name` itself or one inside `rel`. */
  lemma DotSegmentAfterName(name: string, rel: string)
    requires '/' !in name
    ensures HasDotSegment(name + "/" + rel) <==> StartsWith(name, ".") || HasDotSegment(rel)
  {
    var w := name + "/" + rel;
    assert StartsWith(w, ".") <==> StartsWith(name, ".") by {
      if name == "" {
        assert w[0] == '/';
      } else {
        assert w[..1] == name[..1];
      }
    }
    SlashDotAfterName(name, rel);
  }

  lemma SlashDotAfterName(name: string, rel: string)
    requires '/' !in name
    ensures Contains(name + "/" + rel, "/.") <==> StartsWith(rel, ".") || Contains(rel, "/.")
  {
    var w := name + "/" + rel;
    if StartsWith(rel, ".") {
      assert w[|name|..|name| + 2] == "/.";
      assert OccursAt(w, "/.", |name|);
    }
    if Contains(rel, "/.") {
      var j: nat :| j <= |rel| && OccursAt(rel, "/.", j);
      assert w[|name| + 1 + j..|name| + 1 + j + 2] == rel[j..j + 2];
      assert OccursAt(w, "/.", |name| + 1 + j);
    }
    if Contains(w, "/.") {
      var i: nat :| i <= |w| && OccursAt(w, "/.", i);
      SlashDotOccurrence(name, rel, i);
    }
  }

  lemma SlashDotOccurrence(name: string, rel: string, i: nat)
    requires '/' !in name && OccursAt(name + "/" + rel, "/.", i)
    ensures StartsWith(rel, ".") || Contains(rel, "/.")
  {
    var w := name + "/" + rel;
    assert w[i] == '/' && w[i + 1] == '.';
    if i == |name| {
      assert rel[..1] == [w[i + 1]];
    } else if i > |name| {
      var j := i - |name| - 1;
      assert rel[j] == w[i] && rel[j + 1] == w[i + 1];
      assert rel[j..j + 2] == "/.";
      assert OccursAt(rel, "/.", j);
    }
  }
}
