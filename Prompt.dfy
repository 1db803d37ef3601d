/**
 * The substitutions `promptTemplate` makes into the generated prompt, and
 * `scanNextProject`, which gathers the scan results and fills them in.
 * The fixed prose around the substitutions is not modelled; each
 * substituted line is a field of `PromptFields`.
 */
module Prompt {
  import opened Strings
  import opened Walker
  import opened Classifier
  import opened Frameworks
  import opened Themes

  const NoneDetected := "None detected"
  const NoCssFramework := "No specific CSS framework"
  const NoStateManagement := "Context API or no state management"
  const NoThemes := "No specific theme configuration found"

  /** What `promptTemplate` writes into the prompt. */
  datatype PromptFields = PromptFields(
    language: string,          // the **Language:** line
    cssFrameworks: string,     // the **CSS Frameworks:** line
    stateManagement: string,   // the **State Management:** line
    themes: string,            // the **Detected Themes:** line
    cssImports: string,        // the CSS Import Guidelines block
    stylingGuidance: string,   // instruction 2
    stateGuidance: string,     // instruction 3
    structure: ProjectStructure)

  /** `fileTypes.includes("ts") ? "TypeScript" : "JavaScript"`. */
  function LanguageName(fileTypes: seq<string>): (r: string)
    ensures r == "TypeScript" || r == "JavaScript"
    ensures r == "TypeScript" <==> "ts" in fileTypes
  {
    if "ts" in fileTypes then "TypeScript" else "JavaScript"
  }

  /**
   * `xs.join(", ") || fallback`: the empty string is falsy, so the fallback
   * replaces an empty join.
   */
  function JoinOr(xs: seq<string>, fallback: string): (r: string)
    ensures xs == [] || xs == [""] ==> r == fallback
    ensures xs != [] && xs != [""] ==> r != "" && StartsWith(r, xs[0])
    ensures xs != [] && xs != [""] ==> forall i :: 0 <= i < |xs| ==> Contains(r, xs[i])
    ensures xs != [] && xs != [""] ==> r == Join(xs, ", ")
  {
    var joined := Join(xs, ", ");
    if joined == "" then fallback else joined
  }

  /**
   * With the fallback out of the way, the line is the elements separated
   * by ", " in order: one more element adds ", " and that element.
   */
  lemma JoinOrSnoc(xs: seq<string>, x: string, fallback: string)
    requires xs != []
    ensures JoinOr(xs + [x], fallback) == Join(xs, ", ") + ", " + x
    ensures JoinOr([x], fallback) == if x == "" then fallback else x
  {
    JoinSnoc(xs, x, ", ");
    assert |xs + [x]| >= 2;
  }

  /** `Object.keys(m).filter((k) => m[k]).join(", ") || fallback`. */
  function FlagLine(m: FlagMap, fallback: string): string {
    JoinOr(TrueNames(m), fallback)
  }

  /** `promptTemplate(structure, cssFrameworks, stateManagement, fileTypes, cssImports, themes)`. */
  function PromptTemplate(structure: ProjectStructure, cssFrameworks: FlagMap, stateManagement: FlagMap,
                          fileTypes: seq<string>, cssImports: seq<string>, themes: seq<string>): (p: PromptFields)
    ensures p.language == LanguageName(fileTypes)
    ensures p.language == "TypeScript" <==> "ts" in fileTypes
    ensures TrueNames(cssFrameworks) == [] || TrueNames(cssFrameworks) == [""] ==>
      p.cssFrameworks == NoneDetected && p.stylingGuidance == NoCssFramework
    ensures TrueNames(stateManagement) == [] || TrueNames(stateManagement) == [""] ==>
      p.stateManagement == NoneDetected && p.stateGuidance == NoStateManagement
    ensures forall n | n in TrueNames(cssFrameworks) && n != "" ::
      Contains(p.cssFrameworks, n) && Contains(p.stylingGuidance, n)
    ensures forall n | n in TrueNames(stateManagement) && n != "" ::
      Contains(p.stateManagement, n) && Contains(p.stateGuidance, n)
    ensures TrueNames(cssFrameworks) != [] && TrueNames(cssFrameworks) != [""] ==>
      p.cssFrameworks == Join(TrueNames(cssFrameworks), ", ") == p.stylingGuidance
    ensures TrueNames(stateManagement) != [] && TrueNames(stateManagement) != [""] ==>
      p.stateManagement == Join(TrueNames(stateManagement), ", ") == p.stateGuidance
    ensures themes == [] || themes == [""] ==> p.themes == NoThemes
    ensures forall t | t in themes && t != "" :: Contains(p.themes, t)
    ensures themes != [] && themes != [""] ==> p.themes == Join(themes, ", ")
    ensures forall l | l in cssImports :: Contains(p.cssImports, l)
    ensures p.cssImports == Join(cssImports, "\n")
    ensures p.structure == structure
  {
    var p := PromptFields(
      LanguageName(fileTypes),
      FlagLine(cssFrameworks, NoneDetected),
      FlagLine(stateManagement, NoneDetected),
      JoinOr(themes, NoThemes),
      Join(cssImports, "\n"),
      FlagLine(cssFrameworks, NoCssFramework),
      FlagLine(stateManagement, NoStateManagement),
      structure);
    assert forall t | t in themes && t != "" :: Contains(p.themes, t) by {
      forall t | t in themes && t != "" ensures Contains(p.themes, t) {
        var i :| 0 <= i < |themes| && themes[i] == t;
      }
    }
    NamesInFlagLines(cssFrameworks, NoneDetected, NoCssFramework);
    NamesInFlagLines(stateManagement, NoneDetected, NoStateManagement);
    assert forall l | l in cssImports :: Contains(p.cssImports, l) by {
      forall l | l in cssImports ensures Contains(p.cssImports, l) {
        var i :| 0 <= i < |cssImports| && cssImports[i] == l;
      }
    }
    p
  }

  /** Every non-empty set flag name appears in both lines built from `m`. */
  lemma NamesInFlagLines(m: FlagMap, fallback1: string, fallback2: string)
    ensures forall n | n in TrueNames(m) && n != "" :: Contains(FlagLine(m, fallback1), n) && Contains(FlagLine(m, fallback2), n)
  {
    var names := TrueNames(m);
    forall n | n in names && n != "" ensures Contains(FlagLine(m, fallback1), n) && Contains(FlagLine(m, fallback2), n) {
      var i :| 0 <= i < |names| && names[i] == n;
    }
  }

  /** The state-management object of `scanNextProject`, which is always `{}`. */
  const StateManagement: FlagMap := []

  /** The names `fs.existsSync` finds directly under the project directory. */
  function RootNames(entries: seq<Entry>): set<string> {
    set e | e in entries :: e.name
  }

  /** The prompt for the project at `projectPath` with directory listing `entries` and manifest `manifest`. */
  function ProjectPrompt(projectPath: string, entries: seq<Entry>, manifest: Option<Manifest>): PromptFields {
    var structure := Structure(Walk(projectPath, entries, DefaultIgnored), projectPath);
    var cssFrameworks := DetectCSSFramework(manifest);
    PromptTemplate(structure, cssFrameworks, StateManagement, structure.fileTypes,
                   CssImportsFor(cssFrameworks), DetectThemes(RootNames(entries)))
  }

  /**
   * `scanNextProject(projectPath)` up to writing the prompt file: the
   * project directory is `entries` and its `package.json` is `manifest`.
   */
  method ScanNextProject(projectPath: string, entries: seq<Entry>, manifest: Option<Manifest>)
    returns (prompt: PromptFields)
    ensures prompt == ProjectPrompt(projectPath, entries, manifest)
    ensures prompt.language == "TypeScript" <==>
      exists f | f in Walk(projectPath, entries, DefaultIgnored) :: EndsWith(f, ".ts")
    ensures prompt.stateManagement == NoneDetected && prompt.stateGuidance == NoStateManagement
    ensures manifest.None? ==> prompt.cssFrameworks == NoneDetected && prompt.cssImports == ""
    ensures prompt.cssFrameworks == NoneDetected <==> TrueNames(DetectCSSFramework(manifest)) == []
    ensures forall k | 0 <= k < |FlagNames| ::
      Lookup(DetectCSSFramework(manifest), FlagNames[k]) ==> Contains(prompt.cssImports, ImportLines[k])
    ensures prompt.themes == NoThemes <==> DetectThemes(RootNames(entries)) == []
  {
    var structure := ScanProjectStructure(projectPath, entries);
    var cssFrameworks := DetectCSSFramework(manifest);
    var stateManagement := StateManagement;
    var cssImports := DetectCSSImports(cssFrameworks);
    var themes := DetectThemes(RootNames(entries));
    prompt := PromptTemplate(structure, cssFrameworks, stateManagement, structure.fileTypes, cssImports, themes);
    if manifest.None? {
      NoManifestNoFlags();
    }
    FrameworkLineFallsBackIffNoFlag(manifest);
    ThemesLineFallsBackIffNoTheme(RootNames(entries));
  }

  /** The language line says TypeScript exactly when some scanned file ends with `.ts`. */
  lemma LanguageFollowsFiles(files: seq<string>)
    ensures LanguageName(FileTypes(files)) == "TypeScript" <==> exists f | f in files :: EndsWith(f, ".ts")
  {
  }

  /** No flag name of `detectCSSFramework` is empty or starts with 'N'. */
  lemma FlagNamesCannotSpellFallback()
    ensures forall n | n in FlagNames :: n != "" && n[0] != 'N'
  {
  }

  /**
   * The CSS Frameworks line falls back to "None detected" exactly when no
   * flag is set, and otherwise names every flag that is set.
   */
  lemma FrameworkLineFallsBackIffNoFlag(manifest: Option<Manifest>)
    ensures var m := DetectCSSFramework(manifest);
      FlagLine(m, NoneDetected) == NoneDetected <==> TrueNames(m) == []
    ensures var m := DetectCSSFramework(manifest);
      forall n | n in TrueNames(m) :: Contains(FlagLine(m, NoneDetected), n)
  {
    var m := DetectCSSFramework(manifest);
    var names := TrueNames(m);
    if manifest.None? {
      NoManifestNoFlags();
    } else if names != [] {
      FlagNamesCannotSpellFallback();
      assert names[0] in Keys(m);
      assert names[0] != "" && names[0][0] != 'N';
      assert names != [""];
      var line := FlagLine(m, NoneDetected);
      assert line[0] == names[0][0];
      assert forall n | n in names :: Contains(line, n) by {
        forall n | n in names ensures Contains(line, n) {
          var i :| 0 <= i < |names| && names[i] == n;
        }
      }
    }
  }

  /** No theme candidate is empty or starts with 'N'. */
  lemma CandidatesCannotSpellFallback()
    ensures forall n | n in ThemeCandidates :: n != "" && n[0] != 'N'
  {
  }

  /**
   * The Detected Themes line falls back exactly when no candidate exists,
   * and otherwise names every detected theme file.
   */
  lemma ThemesLineFallsBackIffNoTheme(present: set<string>)
    ensures var themes := DetectThemes(present);
      JoinOr(themes, NoThemes) == NoThemes <==> themes == []
    ensures var themes := DetectThemes(present);
      forall t | t in themes :: Contains(JoinOr(themes, NoThemes), t)
  {
    var themes := DetectThemes(present);
    if themes != [] {
      CandidatesCannotSpellFallback();
      assert themes[0] in ThemeCandidates;
      assert themes != [""];
      var line := JoinOr(themes, NoThemes);
      assert line[0] == themes[0][0];
      assert forall t | t in themes :: Contains(line, t) by {
        forall t | t in themes ensures Contains(line, t) {
          var i :| 0 <= i < |themes| && themes[i] == t;
        }
      }
    }
  }
}
