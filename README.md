# scan-next-project in Dafny

`scan-next-project` is a command-line tool. It scans a Next.js project directory and writes a prompt file describing the project for a code generator. This project models the scanner in `index.js`, with the filesystem and the manifest abstracted into values, and proves what the scanner computes.

- **Walker** (`getFilesRecursively`). A directory is a `seq<Entry>`, where an entry is a `File(name)` or a `Dir(name, children)`. `path.join` is `dir + "/" + name`.
  - The method `GetFilesRecursively` keeps the source's loop with its accumulator and recursion.
  - It is proved equal to the specification function `Walk`.
  - For trees whose names contain no `/`, it is also proved equal to an independent description: the unfiltered pre-order listing of all files, filtered by "no ignored substring in the full path and no path segment starting with `.`".
  - The ignore test is a substring test on the joined path string. So a project whose path, as given or as `process.cwd()` returns it, contains, say, `dist` yields no files at all (`IgnoredRootWalksNothing`). Where the project sits on disk does not matter, only the path string.
- **Classifier** (`scanProjectStructure`).
  - `fileTypes` is the de-duplicated list of `"ts"`/`"js"` in first-occurrence order. A JavaScript `Set` keeps insertion order.
  - The four buckets are order-preserving filters on `/pages/`, `/components/`, `/pages/api/` and `/styles/`. Each kept path has the first occurrence of the project path removed (`String.prototype.replace` with a string pattern).
- **Dependency flags** (`detectCSSFramework`). The flag object is a sequence of `(name, on)` pairs in key order. Reading a missing key gives `false`. A missing `package.json` gives `{}`. A missing `dependencies` field gives six false flags.
- **CSS import advisor** (`detectCSSImports`). A method with one conditional `push` per flag, proved equal to `CssImportsFor`: one fixed line per set flag, in table order.
- **Theme detector** (`detectThemes`). A filter of ten candidate names against the set of names present at the project root.
- **Prompt** (`promptTemplate`, `scanNextProject`). Each substituted value is a field of `PromptFields`:
  - the language;
  - the comma-joined flag names with their fallbacks;
  - the joined themes;
  - the import block;
  - the structure.
  `ScanNextProject` chains the other operations the way `scanNextProject` does.

Modules: `Seqs` (filter, map, `[...new Set(xs)]`, subsequences), `Strings` (the JavaScript string operations used), `Walker`, `Classifier`, `Frameworks`, `Themes`, `Prompt`.

## Model

| member | source | states |
|---|---|---|
| Walker.GetFilesRecursively | index.js:63-92 | The loop with recursion returns exactly `Walk`. For a tree with `/`-free names, it returns the visible files of the whole tree in listing order. |
| Walker.WalkIsFilteredListing | index.js:63-92 | Pruning skipped directories loses nothing and adds nothing. The result is the unfiltered pre-order file listing, filtered by "no ignored substring in the full path, no dot-named segment", then prefixed with `dir/`. |
| Walker.WalkFindsExactlyVisibleFiles | index.js:76-91 | A path is returned if and only if it is `dir/rel` for a listed non-directory `rel` that is kept by the ignore and dot rules (both directions). |
| Walker.WalkKeepsListingOrder | index.js:76-91 | The results form an order-preserving subsequence of the full listing, so children keep the directory-listing order. |
| Walker.WalkResultsAdmissible | index.js:77-83 | Every returned path starts with `dir/` and contains none of the ignored strings. |
| Walker.IgnoredRootWalksNothing | index.js:78-83 | Because the ignore test is a substring test, a start directory that already contains an ignored string yields no files. |
| Walker.SkippedDirectoryShowsNothing | index.js:78-86 | Nothing below a skipped directory (ignored path or dot name) is visible, so not descending into it loses no file. |
| Walker.DotSegmentAfterName | index.js:80 | Below a directory `name`, a dot-named segment of `name/rel` is `name` itself or a segment of `rel`. This ties the per-entry `startsWith(".")` test to the whole-path description. |
| Seqs.Distinct | index.js:97-99 | `[...new Set(xs)]` has no duplicates, has the same members as `xs`, and starts with `xs[0]`. |
| Seqs.DistinctSnoc | index.js:97-99 | Appending `x` to `xs` appends `x` to `[...new Set(xs)]` when `x` is new and changes nothing otherwise. So every element sits at the position of its first occurrence. |
| Seqs.InsertAllAppend | index.js:97-99 | Inserting `a + b` into a set is inserting `a`, then `b`. |
| Seqs.FilterMultiset | index.js:103-114 | `filter` keeps every occurrence of each element that passes the test and no occurrence of the others. |
| Classifier.FileTypes | index.js:97-99 | `fileTypes` has no duplicates, holds only `"ts"`/`"js"`, and has length at most 2. `"ts"` is in it iff some file ends with `.ts`. `"js"` is in it iff some file does not. The first entry is the kind of the first file. |
| Classifier.AtMostTwoKinds | index.js:97-99 | A duplicate-free list of `"ts"`/`"js"` has at most two entries. |
| Strings.RemoveFirst | index.js:105 | `replace(pattern, "")` leaves a string without `pattern` unchanged. Otherwise the result is `s` with its first occurrence of `pattern` cut out and everything else kept. A leading `pattern` is cut off the front. |
| Classifier.Bucket | index.js:103-114 | A bucket is no longer than the file list and is an order-preserving subsequence of the stripped files. Its members are exactly the stripped files that contain the marker. |
| Classifier.BucketRestoresFilter | index.js:103-114 | For files below the project, putting the project path back in front of each bucket entry gives exactly the files containing the marker, one entry per file, in order. |
| Classifier.ApiRoutesWithinPages | index.js:103-111 | `apiRoutes` is a subsequence of `pages`, since every path containing `/pages/api/` contains `/pages/`. |
| Classifier.BucketsOfWalkAreRelative | index.js:102-114 | For walked files, every bucket entry starts with `/`, and prefixing the project path gives back a walked file. |
| Classifier.StripProjectPath | index.js:105 | Stripping the project path from `projectPath + "/" + rest` leaves `"/" + rest`, and prefixing it again restores the path. |
| Classifier.ScanProjectStructure | index.js:94-116 | The structure is `Structure` of the walk with the default ignored list. Every bucket entry is a project-relative path of a walked file, and each bucket with the project path put back is exactly the walked files containing its marker, in walk order. |
| Frameworks.DetectCSSFramework | index.js:154-173 | No manifest gives the empty object. Otherwise the keys are the six flag names in order, and flag `k` is set iff one of its packages is a dependency key. |
| Frameworks.FlagsFollowDependencies | index.js:163-172 | Reading each flag by name gives true exactly when one of its packages is a dependency key. |
| Frameworks.DaisyUIFromEitherPackage | index.js:169-171 | `daisyUI` is set iff `daisyui` or `react-daisyui` is a dependency key. |
| Frameworks.NoManifestNoFlags | index.js:156-158 | Without `package.json` the object is empty, no flag is set, and no import is advised. |
| Frameworks.NoDependenciesNoFlags | index.js:161-172 | A manifest without `dependencies` gives six flags, all false, and no import. |
| Frameworks.TailwindOnly | index.js:137-173 | A manifest whose only dependency is `tailwindcss` sets only `tailwind` and advises only the Tailwind stylesheet import. |
| Frameworks.TableLines | index.js:137-152 | Testing every flag of a table pushes a subsequence of its lines. Line `k` is pushed iff flag `k` is set, and one line is pushed per set flag. |
| Frameworks.CssImportsFor | index.js:137-152 | The advised imports are a subsequence of the six-line table. Line `k` is present iff flag `k` reads true. The count equals the number of set flags. |
| Frameworks.DetectCSSImports | index.js:137-152 | The six conditional pushes return exactly `CssImportsFor` of the flags. |
| Frameworks.OneImportPerSetFlag | index.js:137-152 | For a detected flag object, there are as many import lines as set flags. |
| Frameworks.PickUpToKeepsTableOrder | index.js:139-150 | Lines pushed after testing the first `k` flags keep table order. |
| Frameworks.PickUpToSelectsSetFlags | index.js:139-150 | After testing the first `k` flags, line `j` has been pushed iff `j < k` and flag `j` is set. |
| Frameworks.PickUpToCount | index.js:139-150 | After testing the first `k` flags, one line has been pushed per set flag among them. |
| Frameworks.LookupAt | index.js:139-150 | In an object with distinct keys, reading key `m[k].name` gives `m[k].on`. |
| Themes.DetectThemes | index.js:118-135 | The result holds exactly the candidates present at the root, in candidate order, with no duplicates and at most ten entries. |
| Themes.MoreFilesMoreThemes | index.js:132-134 | More files at the root never drop a detected theme or reorder the detected themes. |
| Themes.OnlyCandidatesMatter | index.js:119-134 | Root files other than the ten candidates do not influence the result. |
| Themes.NoCandidateNoTheme | index.js:132-134 | With no candidate present, the result is empty. |
| Strings.Join | index.js:22-37 | `join` contains every element. With a non-empty separator it is empty iff the list is empty or `[""]`. It starts with the first element, and a one-element list joins to that element. |
| Strings.JoinSnoc | index.js:22-37 | Joining one more element appends the separator and that element. With the one-element case, this fixes `join` as the elements in order with the separator between neighbours. |
| Prompt.LanguageName | index.js:20 | "TypeScript" iff `fileTypes` includes `"ts"`, otherwise "JavaScript". |
| Prompt.LanguageFollowsFiles | index.js:20 | The language line says TypeScript iff some scanned file ends with `.ts`. |
| Prompt.JoinOr | index.js:22-34 | `join(", ") || fallback` gives the fallback for an empty join. Otherwise it is the `", "`-join of the elements, a non-empty line that starts with the first element and contains every element. |
| Prompt.JoinOrSnoc | index.js:22-34 | A line of two or more elements is the `", "`-join of all but the last, then `", "` and the last. A one-element line is that element, or the fallback when the element is empty. |
| Prompt.NamesInFlagLines | index.js:22-31 | Every non-empty set flag name appears in the line built from the flags, whichever fallback it uses. |
| Prompt.PromptTemplate | index.js:6-61 | The language line follows `fileTypes`. The framework and state lines, and the styling and state instructions, fall back to their phrases when no flag is set or the only set name is empty. Otherwise they are the `", "`-join of the set flag names and name each of them. The themes line falls back when there are no themes or only one empty one, and otherwise is the `", "`-join of the themes. The import block is the newline-join of the import lines. The structure is passed through. |
| Prompt.FrameworkLineFallsBackIffNoFlag | index.js:22-26 | For a detected flag object, the framework line is "None detected" iff no flag is set, and otherwise it names every set flag. |
| Prompt.ThemesLineFallsBackIffNoTheme | index.js:32-34 | The themes line is the fallback phrase iff no theme was detected, and otherwise it names every detected theme. |
| Prompt.ScanNextProject | index.js:175-190 | Gathers the scan and fills the template. The language follows the walked files. The state lines always fall back. No manifest gives "None detected" and an empty import block. The framework line falls back iff no flag is set. Every set flag's import line appears. The themes line falls back iff no theme exists at the root. |

## Left out

- Filesystem calls (`readdirSync`, `statSync`, `existsSync`, `readFileSync`) are inputs instead: the directory tree `entries`, the set of root names, and the parsed manifest.
- Symlinks, permission errors, unreadable entries and directory cycles are host behaviour. The tree is finite and every entry is readable.
- `JSON.parse` of `package.json` and its failure on malformed JSON are not modelled. Only its result is: the keys of `dependencies`, or `None` when the field is missing or falsy.
- `Object.keys` of a `dependencies` value that is not a plain object is not modelled.
- A `package.json` whose JSON value is `null` parses, but then reading `packageJson.dependencies` throws a `TypeError` (index.js:161) and the scan stops. `Option<Manifest>` has no value for this case, so the model does not capture that crash.
- Themes.DetectThemes: on a case-insensitive file system `fs.existsSync` (index.js:133) also finds names that differ only in letter case. The model tests exact membership in the set of root names.
- `JSON.stringify(structure, null, 2)` and the fixed prose of the template are not modelled. `PromptFields` holds the substituted values, with the structure kept as a value.
- `path.join` normalisation (collapsing `.`/`..`, duplicate or trailing separators) is not modelled. In particular, a project path such as `.` or one ending in `/` joins differently in the source.
- `console.log`, `process.argv`/`process.cwd()`, and the creation of `.continue/prompts/gencode.prompt` with `mkdirSync`/`writeFileSync` (index.js:192-198) are not modelled. `ScanNextProject` returns the prompt fields instead of writing them.
- `String.prototype.replace` special `$` patterns cannot arise, because the replacement string is empty.
- Walker.WalkIsFilteredListing: requires entry names without `/`. A real directory listing guarantees this, and without it `path.join` could create dot segments that no single name starts with.
- Themes.DetectThemes: `fs.existsSync` is true for directories as well as files. The model treats it as membership in the set of root names, whatever kind the entry is.
