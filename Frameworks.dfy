/**
 * `detectCSSFramework` and `detectCSSImports` of index.js: the styling
 * libraries declared in the project's manifest, as an object of boolean
 * flags, and one import line per flag that is set.
 */
module Frameworks {
  import opened Seqs

  datatype Option<T> = None | Some(value: T)

  /**
   * What index.js reads of a parsed `package.json`: the keys of its
   * `dependencies` object, or None when that field is missing or falsy
   * (`packageJson.dependencies || {}`).
   */
  datatype Manifest = Manifest(dependencies: Option<seq<string>>)

  /** One property of a flag object such as `cssFrameworks`. */
  datatype Flag = Flag(name: string, on: bool)

  /** A JavaScript object of boolean properties, its keys in insertion order. */
  type FlagMap = seq<Flag>

  /** The flags `detectCSSFramework` sets, in the order it writes them. */
  const FlagNames: seq<string> := ["tailwind", "styledComponents", "chakraUI", "bootstrap", "mui", "daisyUI"]

  /** For each flag of `FlagNames`, the dependency names any one of which sets it. */
  const FlagPackages: seq<seq<string>> :=
    [["tailwindcss"], ["styled-components"], ["@chakra-ui/react"], ["bootstrap"], ["@mui/material"],
     ["daisyui", "react-daisyui"]]

  /** For each flag of `FlagNames`, the import line `detectCSSImports` recommends. */
  const ImportLines: seq<string> := [
    "import 'tailwindcss/tailwind.css';",
    "import styled from 'styled-components';",
    "import { ChakraProvider } from '@chakra-ui/react';",
    "import 'bootstrap/dist/css/bootstrap.min.css';",
    "import { ThemeProvider } from '@mui/material/styles';",
    "import { xxx } from 'react-daisyui';"
  ]

  /** `Object.keys(m)`. */
  function Keys(m: FlagMap): seq<string> {
    Map(m, (f: Flag) => f.name)
  }

  /** `m[name]` read as a condition: a missing property is `undefined`, which is falsy. */
  function Lookup(m: FlagMap, name: string): bool {
    if m == [] then false else if m[0].name == name then m[0].on else Lookup(m[1..], name)
  }

  /** `Object.keys(m).filter((k) => m[k])`: the names of the flags that are set, in key order. */
  function TrueNames(m: FlagMap): seq<string> {
    Filter(Keys(m), (k: string) => Lookup(m, k))
  }

  /** The dependency keys `detectCSSFramework` inspects. */
  function DependencyKeys(json: Manifest): seq<string> {
    match json.dependencies
    case None => []
    case Some(keys) => keys
  }

  /**
   * `detectCSSFramework`: `None` stands for a project without a
   * `package.json`, for which the function returns the empty object `{}`.
   */
  function DetectCSSFramework(manifest: Option<Manifest>): (m: FlagMap)
    ensures manifest.None? ==> m == []
    ensures manifest.Some? ==> Keys(m) == FlagNames
    ensures manifest.Some? ==> forall k | 0 <= k < |FlagNames| ::
      m[k].on <==> exists p | p in FlagPackages[k] :: p in DependencyKeys(manifest.value)
  {
    match manifest
    case None => []
    case Some(json) =>
      var dependencies := DependencyKeys(json);
      var m := [
        Flag("tailwind", "tailwindcss" in dependencies),
        Flag("styledComponents", "styled-components" in dependencies),
        Flag("chakraUI", "@chakra-ui/react" in dependencies),
        Flag("bootstrap", "bootstrap" in dependencies),
        Flag("mui", "@mui/material" in dependencies),
        Flag("daisyUI", "daisyui" in dependencies || "react-daisyui" in dependencies)
      ];
      assert Keys(m) == FlagNames by {
        assert |Keys(m)| == 6;
        forall k | 0 <= k < 6 ensures Keys(m)[k] == FlagNames[k] { }
      }
      m
  }

  /** `[line]` when `isSet`, otherwise nothing. */
  function LineIf(isSet: bool, line: string): seq<string> {
    if isSet then [line] else []
  }

  /**
   * The lines of `lines` pushed after testing the first `k` flags of
   * `names`, one after the other: `lines[i]` is pushed when flag `names[i]`
   * is set in `m`.
   */
  function PickUpTo(names: seq<string>, lines: seq<string>, m: FlagMap, k: nat): seq<string>
    requires |names| == |lines| && k <= |names|
  {
    if k == 0 then []
    else PickUpTo(names, lines, m, k - 1) + LineIf(Lookup(m, names[k - 1]), lines[k - 1])
  }

  lemma {:induction false} PickUpToKeepsTableOrder(names: seq<string>, lines: seq<string>, m: FlagMap, k: nat)
    requires |names| == |lines| && k <= |names|
    ensures IsSubseq(PickUpTo(names, lines, m, k), lines[..k])
  {
    if k > 0 {
      PickUpToKeepsTableOrder(names, lines, m, k - 1);
      assert lines[..k] == lines[..k - 1] + [lines[k - 1]];
      var before := PickUpTo(names, lines, m, k - 1);
      SubseqSnoc(before, lines[..k - 1], lines[k - 1]);
      if !Lookup(m, names[k - 1]) {
        assert PickUpTo(names, lines, m, k) == before + [] == before;
      }
    }
  }

  lemma {:induction false} PickUpToSelectsSetFlags(names: seq<string>, lines: seq<string>, m: FlagMap, k: nat)
    requires |names| == |lines| && k <= |names| && NoDuplicates(lines)
    ensures forall j | 0 <= j < |lines| :: lines[j] in PickUpTo(names, lines, m, k) <==> j < k && Lookup(m, names[j])
  {
    if k > 0 {
      PickUpToSelectsSetFlags(names, lines, m, k - 1);
    }
  }

  lemma {:induction false} PickUpToCount(names: seq<string>, lines: seq<string>, m: FlagMap, k: nat)
    requires |names| == |lines| && k <= |names|
    ensures |PickUpTo(names, lines, m, k)| == |Filter(names[..k], (n: string) => Lookup(m, n))|
  {
    if k > 0 {
      PickUpToCount(names, lines, m, k - 1);
      assert names[..k] == names[..k - 1] + [names[k - 1]];
      FilterAppend(names[..k - 1], [names[k - 1]], (n: string) => Lookup(m, n));
    }
  }

  /**
   * The lines of `lines` whose flag in `names` is set in `m`, in table
   * order: what testing every flag of the table pushes.
   */
  function TableLines(names: seq<string>, lines: seq<string>, m: FlagMap): (r: seq<string>)
    requires |names| == |lines| && NoDuplicates(lines)
    ensures IsSubseq(r, lines)
    ensures forall k | 0 <= k < |names| :: lines[k] in r <==> Lookup(m, names[k])
    ensures |r| == |Filter(names, (n: string) => Lookup(m, n))|
  {
    PickUpToKeepsTableOrder(names, lines, m, |names|);
    PickUpToSelectsSetFlags(names, lines, m, |names|);
    PickUpToCount(names, lines, m, |names|);
    assert lines[..|names|] == lines && names[..|names|] == names;
    PickUpTo(names, lines, m, |names|)
  }

  lemma ImportLinesDistinct()
    ensures NoDuplicates(ImportLines)
  {
  }

  /** The import lines `detectCSSImports` returns for the flags `m`. */
  function CssImportsFor(m: FlagMap): (r: seq<string>)
    ensures IsSubseq(r, ImportLines)
    ensures forall k | 0 <= k < |FlagNames| :: ImportLines[k] in r <==> Lookup(m, FlagNames[k])
    ensures |r| == |Filter(FlagNames, (n: string) => Lookup(m, n))|
  {
    ImportLinesDistinct();
    TableLines(FlagNames, ImportLines, m)
  }

  /** `detectCSSImports(cssFrameworks)`: one `push` per flag that is set, tested in table order. */
  method DetectCSSImports(cssFrameworks: FlagMap) returns (imports: seq<string>)
    ensures imports == CssImportsFor(cssFrameworks)
  {
    imports := [];
    if Lookup(cssFrameworks, "tailwind") {
      imports := imports + ["import 'tailwindcss/tailwind.css';"];
    }
    assert imports == PickUpTo(FlagNames, ImportLines, cssFrameworks, 1);
    if Lookup(cssFrameworks, "styledComponents") {
      imports := imports + ["import styled from 'styled-components';"];
    }
    assert imports == PickUpTo(FlagNames, ImportLines, cssFrameworks, 2);
    if Lookup(cssFrameworks, "chakraUI") {
      imports := imports + ["import { ChakraProvider } from '@chakra-ui/react';"];
    }
    assert imports == PickUpTo(FlagNames, ImportLines, cssFrameworks, 3);
    if Lookup(cssFrameworks, "bootstrap") {
      imports := imports + ["import 'bootstrap/dist/css/bootstrap.min.css';"];
    }
    assert imports == PickUpTo(FlagNames, ImportLines, cssFrameworks, 4);
    if Lookup(cssFrameworks, "mui") {
      imports := imports + ["import { ThemeProvider } from '@mui/material/styles';"];
    }
    assert imports == PickUpTo(FlagNames, ImportLines, cssFrameworks, 5);
    if Lookup(cssFrameworks, "daisyUI") {
      imports := imports + ["import { xxx } from 'react-daisyui';"];
    }
    assert imports == PickUpTo(FlagNames, ImportLines, cssFrameworks, 6);
  }

  /** In an object whose keys are distinct, reading key `m[k].name` gives `m[k].on`. */
  lemma {:induction false} LookupAt(m: FlagMap, k: nat)
    requires k < |m| && NoDuplicates(Keys(m))
    ensures Lookup(m, m[k].name) == m[k].on
  {
    if k > 0 {
      assert Keys(m)[0] == m[0].name && Keys(m)[k] == m[k].name;
      assert NoDuplicates(Keys(m[1..])) by {
        forall i, j | 0 <= i < j < |m| - 1 ensures Keys(m[1..])[i] != Keys(m[1..])[j] {
          assert Keys(m[1..])[i] == Keys(m)[i + 1] && Keys(m[1..])[j] == Keys(m)[j + 1];
        }
      }
      LookupAt(m[1..], k - 1);
    }
  }

  lemma FlagNamesDistinct()
    ensures NoDuplicates(FlagNames)
  {
    assert forall i, j | 0 <= i < j < |FlagNames| :: FlagNames[i][0] != FlagNames[j][0];
  }

  /** Each of the six flags reads as set exactly when one of its packages is a dependency. */
  lemma FlagsFollowDependencies(json: Manifest)
    ensures var m := DetectCSSFramework(Some(json));
      forall k | 0 <= k < |FlagNames| ::
        Lookup(m, FlagNames[k]) <==> exists p | p in FlagPackages[k] :: p in DependencyKeys(json)
  {
    var m := DetectCSSFramework(Some(json));
    FlagNamesDistinct();
    forall k | 0 <= k < |FlagNames| ensures Lookup(m, FlagNames[k]) == m[k].on {
      assert Keys(m)[k] == m[k].name;
      LookupAt(m, k);
    }
  }

  /** `daisyUI` is set when either of its two package names is a dependency. */
  lemma DaisyUIFromEitherPackage(json: Manifest)
    ensures Lookup(DetectCSSFramework(Some(json)), "daisyUI")
        <==> "daisyui" in DependencyKeys(json) || "react-daisyui" in DependencyKeys(json)
  {
    FlagsFollowDependencies(json);
    assert FlagNames[5] == "daisyUI";
    assert FlagPackages[5] == ["daisyui", "react-daisyui"];
  }

  /** Without a `package.json` the flag object is empty: no flag is set and no import is advised. */
  lemma NoManifestNoFlags()
    ensures DetectCSSFramework(None) == []
    ensures TrueNames(DetectCSSFramework(None)) == []
    ensures CssImportsFor(DetectCSSFramework(None)) == []
  {
    FilterNone(FlagNames, (n: string) => Lookup([], n));
  }

  /** A manifest without `dependencies` sets all six flags to false, so no import is advised. */
  lemma NoDependenciesNoFlags(json: Manifest)
    requires json.dependencies.None?
    ensures var m := DetectCSSFramework(Some(json));
      |m| == |FlagNames| && (forall f | f in m :: !f.on) && TrueNames(m) == [] && CssImportsFor(m) == []
  {
    var m := DetectCSSFramework(Some(json));
    FlagsFollowDependencies(json);
    FilterNone(FlagNames, (n: string) => Lookup(m, n));
    FilterNone(Keys(m), (k: string) => Lookup(m, k));
  }

  /** For a detected flag object, there is one import line per flag that is set. */
  lemma OneImportPerSetFlag(manifest: Option<Manifest>)
    ensures |CssImportsFor(DetectCSSFramework(manifest))| == |TrueNames(DetectCSSFramework(manifest))|
  {
    var m := DetectCSSFramework(manifest);
    if manifest.None? {
      NoManifestNoFlags();
    } else {
      FilterSameCondition(FlagNames, (n: string) => Lookup(m, n), (k: string) => Lookup(m, k));
    }
  }

  /** A manifest whose only dependency is `tailwindcss` sets only `tailwind`, which advises the Tailwind stylesheet. */
  lemma TailwindOnly(json: Manifest)
    requires DependencyKeys(json) == ["tailwindcss"]
    ensures var m := DetectCSSFramework(Some(json));
      TrueNames(m) == ["tailwind"] && CssImportsFor(m) == ["import 'tailwindcss/tailwind.css';"]
  {
    var m := DetectCSSFramework(Some(json));
    TailwindOnlyFlags(json);
    OnlyHeadSet(FlagNames, m);
    OnlyElement(CssImportsFor(m), ImportLines[0]);
  }

  lemma OnlyElement(r: seq<string>, x: string)
    requires |r| == 1 && x in r
    ensures r == [x]
  {
  }

  /** When only the first of `names` is set in `m`, filtering `names` by `m` keeps that one. */
  lemma OnlyHeadSet(names: seq<string>, m: FlagMap)
    requires names != [] && Lookup(m, names[0])
    requires forall k | 1 <= k < |names| :: !Lookup(m, names[k])
    ensures Filter(names, (n: string) => Lookup(m, n)) == [names[0]]
    ensures Filter(names, (k: string) => Lookup(m, k)) == [names[0]]
  {
    assert forall n | n in names[1..] :: !Lookup(m, n) by {
      forall n | n in names[1..] ensures !Lookup(m, n) {
        var i :| 0 <= i < |names| - 1 && names[1..][i] == n;
        assert names[i + 1] == n;
      }
    }
    FilterNone(names[1..], (n: string) => Lookup(m, n));
    FilterNone(names[1..], (k: string) => Lookup(m, k));
  }

  lemma TailwindOnlyFlags(json: Manifest)
    requires DependencyKeys(json) == ["tailwindcss"]
    ensures var m := DetectCSSFramework(Some(json));
      Lookup(m, "tailwind") && forall k | 1 <= k < |FlagNames| :: !Lookup(m, FlagNames[k])
  {
    FlagsFollowDependencies(json);
    OnlyTailwindNamesTailwindcss();
  }

  /** No flag but `tailwind` lists the package `tailwindcss`. */
  lemma OnlyTailwindNamesTailwindcss()
    ensures forall k, p | 1 <= k < |FlagPackages| && p in FlagPackages[k] :: p != "tailwindcss"
  {
    forall k, p | 1 <= k < |FlagPackages| && p in FlagPackages[k] ensures p != "tailwindcss" {
      assert |p| != |"tailwindcss"|;
    }
  }
}
