/**
 * `detectThemes` of index.js: which of ten well-known theme and styling
 * configuration files exist at the root of the project.
 */
module Themes {
  import opened Seqs

  /** The candidate file names, in the order `detectThemes` tests them. */
  const ThemeCandidates: seq<string> := [
    "theme.ts", "theme.js",
    "tailwind.config.js", "tailwind.config.ts",
    "styled-components.ts", "styled-components.js",
    "chakra-ui-theme.ts", "chakra-ui-theme.js",
    "antd-theme.ts", "antd-theme.js"
  ]

  /**
   * `detectThemes(projectPath)`, where `present` holds the names that
   * exist directly under the project directory (what
   * `fs.existsSync(path.join(projectPath, file))` answers).
   */
  function DetectThemes(present: set<string>): (r: seq<string>)
    ensures forall n :: n in r <==> n in ThemeCandidates && n in present
    ensures IsSubseq(r, ThemeCandidates)
    ensures NoDuplicates(r)
    ensures |r| <= |ThemeCandidates|
  {
    CandidatesDistinct();
    FilterKeepsNoDuplicates(ThemeCandidates, (n: string) => n in present);
    Filter(ThemeCandidates, (n: string) => n in present)
  }

  lemma CandidatesDistinct()
    ensures NoDuplicates(ThemeCandidates)
  {
  }

  /**
   * Adding files to the project never drops a detected theme and never
   * reorders the ones already found.
   */
  lemma MoreFilesMoreThemes(present: set<string>, more: set<string>)
    requires present <= more
    ensures IsSubseq(DetectThemes(present), DetectThemes(more))
  {
    FilterWeakerKeepsMore(ThemeCandidates, (n: string) => n in present, (n: string) => n in more);
  }

  /** Files other than the ten candidates have no influence on the result. */
  lemma OnlyCandidatesMatter(present: set<string>, other: set<string>)
    requires forall n | n in ThemeCandidates :: n in present <==> n in other
    ensures DetectThemes(present) == DetectThemes(other)
  {
    FilterSameCondition(ThemeCandidates, (n: string) => n in present, (n: string) => n in other);
  }

  /** A project holding none of the candidates has no detected theme. */
  lemma NoCandidateNoTheme(present: set<string>)
    requires forall n | n in ThemeCandidates :: n !in present
    ensures DetectThemes(present) == []
  {
    FilterNone(ThemeCandidates, (n: string) => n in present);
  }
}
