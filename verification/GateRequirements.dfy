/** What changes of ordinary paths require, told by the paths: families of files, each with any name behind its
    directory, and the scripts of the manifest. */
module GateRequirements {
  import opened Lists
  import opened Strings
  import opened GateSelection

  // --- Paths as they are written ----------------------------------------------------------------------------

  lemma {:induction false} SlashedIs(path: string)
    ensures forall k | 0 <= k < |path| :: Slashed(path)[k] == if path[k] == '\\' then '/' else path[k]
    decreases |path|
  {
    if path != "" {
      SlashedIs(path[1..]);
    }
  }

  /** The file that a path names: backslashes are slashes, and one leading `./` goes. */
  lemma PlainPath(path: string)
    requires '\\' !in path && !("./" <= path)
    ensures Normal(path) == path && Normal("./" + path) == path
  {
    SlashedIs(path);
    assert Slashed(path) == path;
    var dotted := "./" + path;
    SlashedIs(dotted);
    forall k | 0 <= k < |dotted| ensures Slashed(dotted)[k] == dotted[k] {
      assert k >= 2 ==> dotted[k] == path[k - 2];
    }
    assert Slashed(dotted) == dotted && dotted[2..] == path;
  }

  // --- Directories ------------------------------------------------------------------------------------------

  lemma IsUnder(directory: string, rest: string)
    ensures Under(directory + rest, directory)
  {
  }

  /** What differs at some character lies elsewhere. */
  lemma Elsewhere(file: string, q: string, k: nat)
    requires k < |q| && k < |file| && q[k] != file[k]
    ensures !Under(file, q) && !Is(file, q)
  {
  }

  lemma NotFits(file: string, head: string, tail: string, k: nat)
    requires k < |head| && k < |file| && head[k] != file[k]
    ensures !Fits(file, head, tail)
  {
  }

  lemma HasEnd(file: string, tail: string)
    ensures EndsWith(file + tail, tail)
  {
    assert (file + tail)[|file|..] == tail;
  }

  // --- Gates ------------------------------------------------------------------------------------------------

  /** `file` is among the changed files of a classification. */
  ghost predicate Changes(c: Context, paths: seq<string>, r: Classification, file: string) {
    IsClassification(c, paths, r) && Changed(paths, file) && file != "package.json"
  }

  lemma AskedIsRequired(c: Context, paths: seq<string>, r: Classification, file: string, g: string)
    requires Changes(c, paths, r, file) && g in GATES
    requires Gate(g) in AreaEffect(file, file in c.includes) + ExtraEffect(file, file in c.includes)
    ensures g in r.requiredGates
  {
    hide AreaEffect, ExtraEffect, PackageAsks;
    assert Asks(c, file, Gate(g));
  }

  lemma ApplicationIsAsked(c: Context, paths: seq<string>, r: Classification, file: string)
    requires Changes(c, paths, r, file) && Application in AreaEffect(file, file in c.includes)
    ensures !r.toolingOnly
  {
    hide AreaEffect, ExtraEffect, PackageAsks;
    assert Asks(c, file, Application);
  }

  lemma SiteIsAsked(c: Context, paths: seq<string>, r: Classification, file: string)
    requires Changes(c, paths, r, file) && Site in ExtraEffect(file, file in c.includes)
    ensures r.site
  {
    hide AreaEffect, ExtraEffect, PackageAsks;
    assert Asks(c, file, Site);
  }

  lemma GatesAre()
    ensures "lint-test-build" in GATES && "sast" in GATES && "rust-test" in GATES && "parser-regressions" in GATES
  {
    assert GATES[1] == "lint-test-build" && GATES[2] == "sast" && GATES[5] == "rust-test";
    assert GATES[3] == "parser-regressions";
  }

  /** What branch a file below `src-tauri/` takes. */
  lemma RustArea(file: string, included: bool)
    requires Under(file, "src-tauri/")
    ensures RUST <= AreaEffect(file, included)
  {
    hide Is, Under, Fits, EndsWith;
  }

  /** Everything below `src-tauri/` requires the Rust tests and the analysis. */
  lemma RustRequires(c: Context, paths: seq<string>, r: Classification, rest: string)
    requires Changes(c, paths, r, "src-tauri/" + rest)
    ensures "rust-test" in r.requiredGates && "sast" in r.requiredGates
  {
    hide AreaEffect, ExtraEffect, IsClassification, Changed, Under;
    var file := "src-tauri/" + rest;
    GatesAre();
    IsUnder("src-tauri/", rest);
    RustArea(file, file in c.includes);
    AskedIsRequired(c, paths, r, file, "rust-test");
    AskedIsRequired(c, paths, r, file, "sast");
  }

  /** The parsers and what fuzzes them also require their regressions. */
  lemma ParsersRequire(c: Context, paths: seq<string>, r: Classification, file: string)
    requires Changes(c, paths, r, file) && (Under(file, "src-tauri/src/protocol/") || Under(file, "src-tauri/fuzz/"))
    ensures "parser-regressions" in r.requiredGates
  {
    hide AreaEffect, IsClassification, Changed, Under, Is, WebsiteInput, SmokeInput;
    GatesAre();
    AskedIsRequired(c, paths, r, file, "parser-regressions");
  }

  lemma SourcesAreElsewhere(rest: string)
    ensures var file := "src/" + rest;
      && !PackageFile(file) && !RustInput(file) && !Under(file, ".semgrep/") && !Under(file, "scripts/site/")
      && !WebsiteTest(file) && !ToolingInput(file) && FrontendInput(file)
  {
    var file := "src/" + rest;
    hide Is, Under, Fits, EndsWith;
    assert file[0] == 's' && file[1] == 'r' && file[2] == 'c' && file[3] == '/';
    IsUnder("src/", rest);
    Elsewhere(file, "package.json", 0);
    Elsewhere(file, "package-lock.json", 0);
    Elsewhere(file, "src-tauri/", 3);
    Elsewhere(file, ".cargo/", 0);
    Elsewhere(file, "Cargo.lock", 0);
    Elsewhere(file, "rust-toolchain.toml", 0);
    Elsewhere(file, "scripts/cargo.ts", 1);
    Elsewhere(file, ".semgrep/", 0);
    Elsewhere(file, "scripts/site/", 1);
    Elsewhere(file, "scripts/checks/", 1);
    Elsewhere(file, "scripts/coverage/", 1);
    Elsewhere(file, "test/unit/tooling/", 0);
    Elsewhere(file, ".github/workflows/checks.yml", 0);
    Elsewhere(file, ".github/workflows/ci.yml", 0);
    NotFits(file, "test/unit/tooling/site", ".test.ts", 0);
    NotFits(file, "test/visual/website-", ".spec.ts", 0);
    Elsewhere(file, "test/visual/playwright.site.config.ts", 0);
  }

  /** Everything below `src/` requires the build, the analysis and the application. */
  lemma SourcesRequire(c: Context, paths: seq<string>, r: Classification, rest: string)
    requires Changes(c, paths, r, "src/" + rest)
    ensures "lint-test-build" in r.requiredGates && "sast" in r.requiredGates && !r.toolingOnly
  {
    hide ExtraEffect, IsClassification, Changed, Under, Is, PackageFile, SharedInput, RustInput, ToolingInput,
      FrontendInput, WebsiteTest;
    var file := "src/" + rest;
    GatesAre();
    SourcesAreElsewhere(rest);
    AskedIsRequired(c, paths, r, file, "lint-test-build");
    AskedIsRequired(c, paths, r, file, "sast");
    ApplicationIsAsked(c, paths, r, file);
  }

  /** What both sides share requires the Rust tests as well. */
  lemma PlatformRequires(c: Context, paths: seq<string>, r: Classification, rest: string)
    requires Changes(c, paths, r, "src/platform/" + rest)
    ensures "lint-test-build" in r.requiredGates && "rust-test" in r.requiredGates && !r.toolingOnly
  {
    hide ExtraEffect, IsClassification, Changed, Under, Is, RustInput, PackageFile;
    var file := "src/platform/" + rest;
    GatesAre();
    IsUnder("src/platform/", rest);
    AskedIsRequired(c, paths, r, file, "lint-test-build");
    AskedIsRequired(c, paths, r, file, "rust-test");
    ApplicationIsAsked(c, paths, r, file);
  }

  /** The user guide is part of the website. */
  lemma GuideRequires(c: Context, paths: seq<string>, r: Classification, rest: string)
    requires Changes(c, paths, r, "docs/guide/" + rest)
    ensures r.site
  {
    hide AreaEffect, IsClassification, Changed, Under, Is, WebsiteTest, SmokeInput;
    IsUnder("docs/guide/", rest);
    SiteIsAsked(c, paths, r, "docs/guide/" + rest);
  }

  /** The rules of the analysis require it. */
  lemma RulesRequire(c: Context, paths: seq<string>, r: Classification, rest: string)
    requires Changes(c, paths, r, ".semgrep/" + rest)
    ensures "sast" in r.requiredGates
  {
    hide ExtraEffect, IsClassification, Changed, Under, Is, PackageFile, SharedInput, RustInput;
    GatesAre();
    IsUnder(".semgrep/", rest);
    AskedIsRequired(c, paths, r, ".semgrep/" + rest, "sast");
  }

  /** A file that a binary includes requires the Rust tests, wherever it stands. */
  lemma IncludedRequires(c: Context, paths: seq<string>, r: Classification, file: string)
    requires Changes(c, paths, r, file) && file in c.includes
    ensures "rust-test" in r.requiredGates && "sast" in r.requiredGates
  {
    hide AreaEffect, IsClassification, Changed, Under, Is, WebsiteInput, SmokeInput;
    GatesAre();
    AskedIsRequired(c, paths, r, file, "rust-test");
    AskedIsRequired(c, paths, r, file, "sast");
  }

  /** The safety of the file system is tested on Unix, and what the packaged application is smoked with, or shuts down
      with, in the package. */
  lemma PlatformTestsRequired(c: Context, paths: seq<string>, r: Classification, file: string)
    requires Changes(c, paths, r, file)
    ensures file == "src-tauri/src/local_fs/filesystem_safety.rs" ==> "rust-test-unix" in r.requiredGates
    ensures file in ["src-tauri/src/commands/smoke.rs", "src-tauri/src/runtime/shutdown.rs",
                     "src-tauri/assets/smoke_test.js", "src-tauri/assets/acl_probe.js",
                     "test/unit/tooling/packagedSmoke.test.ts"] || "scripts/packaged-smoke/" <= file ==>
              "packaged-smoke" in r.requiredGates
  {
    hide AreaEffect, IsClassification, Changed, WebsiteInput;
    assert GATES[6] == "rust-test-unix" && GATES[10] == "packaged-smoke";
    if file == "src-tauri/src/local_fs/filesystem_safety.rs" {
      AskedIsRequired(c, paths, r, file, "rust-test-unix");
    }
    if SmokeInput(file) {
      AskedIsRequired(c, paths, r, file, "packaged-smoke");
    }
  }

  /** Other versions of the packages require both sides and the website. */
  lemma LockRequires(c: Context, paths: seq<string>, r: Classification)
    requires Changes(c, paths, r, "package-lock.json")
    ensures "lint-test-build" in r.requiredGates && "rust-test" in r.requiredGates && r.site && !r.toolingOnly
  {
    hide ExtraEffect, IsClassification, Changed, SharedInput, RustInput;
    var file := "package-lock.json";
    GatesAre();
    AskedIsRequired(c, paths, r, file, "lint-test-build");
    AskedIsRequired(c, paths, r, file, "rust-test");
    ApplicationIsAsked(c, paths, r, file);
    SiteIsAskedByArea(c, paths, r, file);
  }

  lemma SiteIsAskedByArea(c: Context, paths: seq<string>, r: Classification, file: string)
    requires Changes(c, paths, r, file) && Site in AreaEffect(file, file in c.includes)
    ensures r.site
  {
    hide AreaEffect, ExtraEffect, PackageAsks;
    assert Asks(c, file, Site);
  }

  lemma ChecksAreElsewhere(rest: string)
    ensures Late("scripts/checks/" + rest) && Under("scripts/checks/" + rest, "scripts/checks/")
  {
    var file := "scripts/checks/" + rest;
    hide Is, Under, Fits;
    assert file == "scripts/" + ("checks/" + rest);
    assert file[0] == 's' && file[1] == 'c' && file[8] == 'c' && file[9] == 'h';
    IsUnder("scripts/checks/", rest);
    IsUnder("scripts/", "checks/" + rest);
    Elsewhere(file, ".github/workflows/release.yml", 0);
    Elsewhere(file, "src/platform/", 1);
    Elsewhere(file, "src-tauri/src/commands/", 1);
    Elsewhere(file, "src-tauri/", 1);
    Elsewhere(file, ".cargo/", 0);
    Elsewhere(file, "Cargo.lock", 0);
    Elsewhere(file, "rust-toolchain.toml", 0);
    Elsewhere(file, "scripts/cargo.ts", 9);
    Elsewhere(file, ".semgrep/", 0);
    Elsewhere(file, "scripts/site/", 8);
    NotFits(file, "test/unit/tooling/site", ".test.ts", 0);
    NotFits(file, "test/visual/website-", ".spec.ts", 0);
    Elsewhere(file, "test/visual/playwright.site.config.ts", 0);
  }

  /** A change of the checks requires their own tests. */
  lemma ChecksRequire(c: Context, paths: seq<string>, r: Classification, rest: string)
    requires Changes(c, paths, r, "scripts/checks/" + rest)
    ensures "lint-test-build" in r.requiredGates
  {
    hide Changes, Late, AreaEffect, ExtraEffect, IsClassification, Changed, Is, Under, SharedInput, RustInput, WebsiteTest;
    var file := "scripts/checks/" + rest;
    GatesAre();
    ChecksAreElsewhere(rest);
    ChecksArea(file, file in c.includes);
    AskedIsRequired(c, paths, r, file, "lint-test-build");
  }

  /** The budget of the bundles belongs to the application. */
  lemma BudgetRequires(c: Context, paths: seq<string>, r: Classification)
    requires Changes(c, paths, r, "scripts/checks/check-bundle-budget.ts")
    ensures !r.toolingOnly
  {
    hide Changes, AreaEffect;
    var file := "scripts/checks/check-bundle-budget.ts";
    BudgetIsFrontend(file, file in c.includes);
    ApplicationIsAsked(c, paths, r, file);
  }

  /** None of the branches before the tooling and the frontend takes the file. */
  predicate Late(file: string) {
    && !RustInput(file) && !Under(file, ".semgrep/") && !Under(file, "scripts/site/") && !WebsiteTest(file)
    && !SharedInput(file) && Under(file, "scripts/")
  }

  lemma ChecksArea(file: string, included: bool)
    requires Late(file) && Under(file, "scripts/checks/")
    ensures Gate("lint-test-build") in AreaEffect(file, included)
    ensures !ToolingInput(file) ==> Application in AreaEffect(file, included)
  {
    hide Is, Under, Fits, EndsWith, RustInput, SharedInput, WebsiteTest;
  }

  lemma BudgetIsFrontend(file: string, included: bool)
    requires file == "scripts/checks/check-bundle-budget.ts"
    ensures Application in AreaEffect(file, included)
  {
    hide Late, AreaEffect, Is, Under, RustInput, SharedInput, WebsiteTest, ToolingInput;
    assert file == "scripts/checks/" + "check-bundle-budget.ts";
    ChecksAreElsewhere("check-bundle-budget.ts");
    BudgetIsNoTooling(file);
    ChecksArea(file, included);
  }

  lemma BudgetIsNoTooling(file: string)
    requires file == "scripts/checks/check-bundle-budget.ts"
    ensures !ToolingInput(file)
  {
    assert Is(file, "scripts/checks/check-bundle-budget.ts");
    assert file[0] == 's' && file[9] == 'h';
    hide Is, Under;
    Elsewhere(file, "scripts/coverage/", 9);
    Elsewhere(file, "test/unit/tooling/", 0);
    Elsewhere(file, ".github/workflows/checks.yml", 0);
    Elsewhere(file, ".github/workflows/ci.yml", 0);
  }

  // --- Files that require nothing -----------------------------------------------------------------------------

  /** Apart from `docs/`, whatever is asked for begins with one of these characters. */
  predicate Apart(file: string) {
    && file != ""
    && file[0] != '.' && file[0] != 'C' && file[0] != 'L' && file[0] != 'N' && file[0] != 'a' && file[0] != 'e'
    && file[0] != 'i' && file[0] != 'p' && file[0] != 'r' && file[0] != 's' && file[0] != 't' && file[0] != 'v'
  }

  lemma DocumentAsksNothing(file: string)
    requires Apart(file) && Under(file, "docs/") && !Under(file, "docs/guide/")
    ensures AreaEffect(file, false) + ExtraEffect(file, false) == {}
  {
    hide Is, Under, Fits, EndsWith;
    DocumentArea(file);
    DocumentExtras(file);
  }

  lemma ApartFromRust(file: string)
    requires Apart(file)
    ensures !PackageFile(file) && !SharedInput(file) && !RustInput(file) && !Under(file, ".semgrep/")
  {
    hide Is, Under, Fits;
    Elsewhere(file, "package.json", 0);
    Elsewhere(file, "package-lock.json", 0);
    Elsewhere(file, ".github/workflows/release.yml", 0);
    Elsewhere(file, "src/platform/", 0);
    Elsewhere(file, "src-tauri/src/commands/", 0);
    Elsewhere(file, "src-tauri/", 0);
    Elsewhere(file, ".cargo/", 0);
    Elsewhere(file, "Cargo.lock", 0);
    Elsewhere(file, "rust-toolchain.toml", 0);
    Elsewhere(file, "scripts/cargo.ts", 0);
    Elsewhere(file, ".semgrep/", 0);
  }

  lemma ApartFromWebsite(file: string)
    requires Apart(file)
    ensures !WebsiteTest(file) && !Under(file, "scripts/site/")
    ensures WebsiteInput(file) <==> Under(file, "docs/guide/")
  {
    hide Is, Under, Fits;
    Elsewhere(file, "test/visual/playwright.site.config.ts", 0);
    Elsewhere(file, "scripts/site/", 0);
    Elsewhere(file, "site/", 0);
    Elsewhere(file, "assets/images/", 0);
    Elsewhere(file, "public/favicon.ico", 0);
    Elsewhere(file, "playwright.config.ts", 0);
    Elsewhere(file, ".github/workflows/pages.yml", 0);
    NotFits(file, "test/unit/tooling/site", ".test.ts", 0);
    NotFits(file, "test/visual/website-", ".spec.ts", 0);
  }

  lemma ApartFromTooling(file: string)
    requires Apart(file)
    ensures !ToolingInput(file)
  {
    hide Is, Under, Fits;
    Elsewhere(file, "scripts/checks/", 0);
    Elsewhere(file, "scripts/coverage/", 0);
    Elsewhere(file, "test/unit/tooling/", 0);
    Elsewhere(file, ".github/workflows/checks.yml", 0);
    Elsewhere(file, ".github/workflows/ci.yml", 0);
  }

  lemma ApartFromSmoke(file: string)
    requires Apart(file)
    ensures !SmokeInput(file)
  {
    hide Is, Under, Fits;
    Elsewhere(file, "src-tauri/src/commands/smoke.rs", 0);
    Elsewhere(file, "src-tauri/src/runtime/shutdown.rs", 0);
    Elsewhere(file, "src-tauri/assets/smoke_test.js", 0);
    Elsewhere(file, "src-tauri/assets/acl_probe.js", 0);
    Elsewhere(file, "test/unit/tooling/packagedSmoke.test.ts", 0);
    Elsewhere(file, "scripts/packaged-smoke/", 0);
  }

  lemma ApartFromFrontend(file: string)
    requires Apart(file)
    ensures !FrontendInput(file)
  {
    hide Is, Under, Fits;
    Elsewhere(file, "src/", 0);
    Elsewhere(file, "public/", 0);
    Elsewhere(file, "test/", 0);
    Elsewhere(file, "scripts/", 0);
    Elsewhere(file, "eslint.config.ts", 0);
    Elsewhere(file, "vitest.config.ts", 0);
    Elsewhere(file, "vite.config.ts", 0);
    Elsewhere(file, "playwright.config.ts", 0);
    Elsewhere(file, "index.html", 0);
    Elsewhere(file, ".prettier", 0);
    NotFits(file, "tsconfig", ".json", 0);
  }

  lemma ApartFromParsers(file: string)
    requires Apart(file)
    ensures !Under(file, "src-tauri/src/protocol/") && !Under(file, "src-tauri/fuzz/")
    ensures !Is(file, "src-tauri/src/local_fs/filesystem_safety.rs")
  {
    hide Is, Under, Fits;
    Elsewhere(file, "src-tauri/src/protocol/", 0);
    Elsewhere(file, "src-tauri/fuzz/", 0);
    Elsewhere(file, "src-tauri/src/local_fs/filesystem_safety.rs", 0);
  }

  lemma DocumentArea(file: string)
    requires Apart(file) && Under(file, "docs/")
    ensures AreaEffect(file, false) == {}
  {
    hide Is, Under, PackageFile, SharedInput, RustInput, ToolingInput, FrontendInput, WebsiteTest;
    ApartFromRust(file);
    ApartFromWebsite(file);
    ApartFromTooling(file);
    ApartFromFrontend(file);
  }

  lemma DocumentExtras(file: string)
    requires Apart(file) && !Under(file, "docs/guide/")
    ensures ExtraEffect(file, false) == {}
  {
    hide Is, Under, WebsiteInput, SmokeInput;
    ApartFromWebsite(file);
    ApartFromSmoke(file);
    ApartFromParsers(file);
  }

  lemma NoProse(file: string)
    requires Apart(file) && !Under(file, "docs/") && !EndsWith(file, ".md")
    ensures !ProseInput(file)
  {
    hide Is, Under, EndsWith;
    Elsewhere(file, "site/", 0);
    Elsewhere(file, "assets/", 0);
    Elsewhere(file, ".github/", 0);
    Elsewhere(file, "LICENSE", 0);
    Elsewhere(file, "NOTICE", 0);
    Elsewhere(file, ".gitignore", 0);
    Elsewhere(file, ".gitattributes", 0);
    Elsewhere(file, ".editorconfig", 0);
  }

  lemma UnknownArea(file: string)
    requires Apart(file) && !Under(file, "docs/") && !EndsWith(file, ".md")
    ensures AreaEffect(file, false) == BOTH + {Gate("parser-regressions")}
  {
    hide Is, Under, EndsWith, PackageFile, SharedInput, RustInput, ToolingInput, FrontendInput, ProseInput, WebsiteTest;
    ApartFromRust(file);
    ApartFromWebsite(file);
    ApartFromTooling(file);
    ApartFromFrontend(file);
    NoProse(file);
  }

  /** A file at a place that nothing knows of, and that no binary includes, requires everything on both sides and the
      parser regressions. */
  lemma UnknownRequires(c: Context, paths: seq<string>, r: Classification, file: string)
    requires Changes(c, paths, r, file) && Apart(file) && !Under(file, "docs/") && !EndsWith(file, ".md")
    requires file !in c.includes
    ensures "lint-test-build" in r.requiredGates && "sast" in r.requiredGates && "rust-test" in r.requiredGates
    ensures "parser-regressions" in r.requiredGates && !r.toolingOnly
  {
    hide AreaEffect, ExtraEffect, IsClassification, Changed, Under, EndsWith, Apart;
    GatesAre();
    UnknownArea(file);
    AskedIsRequired(c, paths, r, file, "lint-test-build");
    AskedIsRequired(c, paths, r, file, "sast");
    AskedIsRequired(c, paths, r, file, "rust-test");
    AskedIsRequired(c, paths, r, file, "parser-regressions");
    ApplicationIsAsked(c, paths, r, file);
  }

  /** Documents outside the guide that are not part of the binary require nothing but the supply chain, and no
      application. */
  lemma DocumentsRequireNothing(c: Context, paths: seq<string>, r: Classification)
    requires IsClassification(c, paths, r) && !c.forceFull && c.includes == []
    requires forall file | Changed(paths, file) :: "docs/" <= file && !("docs/guide/" <= file)
    ensures r.requiredGates == ["supply-chain"] && r.toolingOnly && !r.site
  {
    hide PackageAsks, AreaEffect, ExtraEffect, Changed;
    forall file, w | Changed(paths, file) ensures !Asks(c, file, w) {
      DocumentIsNotAsked(c, file, w);
    }
    assert forall w :: !Asked(c, paths, w);
    OnlySupplyChain(WantedGates(c, paths));
  }

  lemma DocumentIsNotAsked(c: Context, file: string, w: Wish)
    requires c.includes == [] && "docs/" <= file && !("docs/guide/" <= file)
    ensures !Asks(c, file, w)
  {
    hide PackageAsks, AreaEffect, ExtraEffect;
    assert file[0] == "docs/"[0] == 'd';
    DocumentAsksNothing(file);
    Elsewhere(file, "package.json", 0);
    assert file != "package.json" && file !in c.includes;
  }

  lemma OnlySupplyChain(wanted: set<string>)
    requires forall g :: g in wanted <==> g == "supply-chain"
    ensures Filtered(GATES, false, wanted) == ["supply-chain"]
  {
    assert GATES == ["supply-chain"] + GATES[1..];
    assert forall k | 1 <= k < |GATES| :: GATES[k] != "supply-chain";
    NoneFiltered(GATES[1..], wanted);
  }

  lemma {:induction false} NoneFiltered(ids: seq<string>, wanted: set<string>)
    requires forall g | g in ids :: g !in wanted
    ensures Filtered(ids, false, wanted) == []
    decreases |ids|
  {
    if ids != [] {
      NoneFiltered(ids[1..], wanted);
    }
  }

  // --- Checks -----------------------------------------------------------------------------------------------

  lemma NeededIsRequired(c: Context, paths: seq<string>, r: Classification, file: string, check: string)
    requires IsClassification(c, paths, r) && Changed(paths, file) && check in CHECKS && NeedsCheck(file, check)
    ensures check in r.requiredChecks
  {
    hide NeedsCheck, Changed;
    assert CheckAsked(paths, check);
  }

  lemma ChecksAre()
    ensures "i18n:check" in CHECKS && "check:docs" in CHECKS
    ensures "check:verified-by" in CHECKS && "format:check" in CHECKS
  {
    assert CHECKS[0] == "i18n:check" && CHECKS[1] == "check:docs";
    assert CHECKS[2] == "check:verified-by" && CHECKS[3] == "format:check";
  }

  /** A file of one line in a directory with the given end. */
  lemma FileFits(head: string, rest: string, tail: string)
    requires forall c | c in rest :: !IsLineEnd(c)
    ensures Fits(head + rest + tail, head, tail)
  {
    var file := head + rest + tail;
    assert file[|file| - |tail|..] == tail && file[..|head|] == head;
    forall k | |head| <= k < |file| - |tail| ensures !IsLineEnd(file[k]) {
      assert file[k] == rest[k - |head|];
    }
  }

  /** Sources of the frontend require the translations and the format to be checked. */
  lemma SourcesNeedTranslations(c: Context, paths: seq<string>, r: Classification, rest: string)
    requires forall c | c in rest :: !IsLineEnd(c)
    requires IsClassification(c, paths, r) && Changed(paths, "src/" + rest + ".ts")
    ensures "i18n:check" in r.requiredChecks && "format:check" in r.requiredChecks
  {
    hide IsClassification, Changed, CheckTooling, Fits;
    var file := "src/" + rest + ".ts";
    ChecksAre();
    FileFits("src/", rest, ".ts");
    NeededIsRequired(c, paths, r, file, "i18n:check");
    HasEnd("src/" + rest, ".ts");
    ScriptEnd(file);
    NeededIsRequired(c, paths, r, file, "format:check");
  }

  lemma ScriptEnd(file: string)
    requires EndsWith(file, ".ts")
    ensures IsScript(file)
  {
    var m, l, x := "", "ts", "";
    assert "." + m + l + x == ".ts";
    assert m in {"", "c", "m"} && l in {"js", "ts"} && x in {"", "x"};
  }

  /** So do the translations themselves, wherever their directory is. */
  lemma LocalesNeedTranslations(c: Context, paths: seq<string>, r: Classification, place: string, name: string)
    requires (forall c | c in place :: !IsLineEnd(c)) && '/' !in name
    requires IsClassification(c, paths, r) && Changed(paths, "src/" + place + "/locales/" + name + ".json")
    requires name != ""
    ensures "i18n:check" in r.requiredChecks && "format:check" in r.requiredChecks
  {
    hide IsClassification, Changed, CheckTooling, Fits, LocaleFrom, EndsWith;
    var file := "src/" + place + "/locales/" + name + ".json";
    ChecksAre();
    LocaleStands(place, name);
    NeededIsRequired(c, paths, r, file, "i18n:check");
    HasEnd("src/" + place + "/locales/" + name, ".json");
    NeededIsRequired(c, paths, r, file, "format:check");
  }

  lemma LocaleStands(place: string, name: string)
    requires (forall c | c in place :: !IsLineEnd(c)) && '/' !in name && name != ""
    ensures LocaleFrom("src/" + place + "/locales/" + name + ".json", 4 + |place|)
  {
    var front, back := "src/" + place, name + ".json";
    var file := front + "/locales/" + name + ".json";
    var k := |front|;
    assert file == front + ("/locales/" + back) && file[k..k + 9] == "/locales/" && file[..4] == "src/";
    HasEnd(front + "/locales/" + name, ".json");
    forall j | 4 <= j < k ensures !IsLineEnd(file[j]) {
      assert file[j] == place[j - 4];
    }
    forall j | k + 9 <= j < |file| - 5 ensures file[j] != '/' {
      assert file[j] == name[j - k - 9];
    }
  }

  /** Rust sources may prove requirements, so these are checked. */
  lemma RustNeedsVerifiedBy(c: Context, paths: seq<string>, r: Classification, rest: string)
    requires IsClassification(c, paths, r) && Changed(paths, rest + ".rs")
    ensures "check:verified-by" in r.requiredChecks
  {
    hide IsClassification, Changed, CheckTooling, Fits, EndsWith, Is;
    ChecksAre();
    HasEnd(rest, ".rs");
    NeededIsRequired(c, paths, r, rest + ".rs", "check:verified-by");
  }

  /** A change of the checks requires all of them. */
  lemma ChecksNeedAll(c: Context, paths: seq<string>, r: Classification, rest: string, check: string)
    requires IsClassification(c, paths, r) && Changed(paths, "scripts/checks/" + rest)
    ensures check in r.requiredChecks <==> check in ["i18n:check", "check:docs", "check:verified-by", "format:check"]
  {
    hide IsClassification, Changed, TranslationInput, DocsInput, VerifiedByInput, FormatInput, Under;
    IsUnder("scripts/checks/", rest);
    assert CHECKS == ["i18n:check", "check:docs", "check:verified-by", "format:check"];
    if check in CHECKS {
      NeededIsRequired(c, paths, r, "scripts/checks/" + rest, check);
    }
    RequiredIsCheck(c, paths, r, check);
  }

  lemma RequiredIsCheck(c: Context, paths: seq<string>, r: Classification, check: string)
    requires IsClassification(c, paths, r)
    ensures check in r.requiredChecks ==> check in CHECKS
  {
  }

  // --- Scripts ------------------------------------------------------------------------------------------------

  /** Scripts of the website concern it alone, checks the tooling, the Rust scripts Rust, and any other both sides. */
  lemma ScriptsAsk(rest: string)
    ensures ScriptEffect("site:" + rest) == {Site} && ScriptEffect("check:" + rest) == {Gate("lint-test-build")}
    ensures ScriptEffect("rust:test") == {Gate("rust-test"), Gate("sast")}
    ensures {Application, Gate("lint-test-build"), Gate("sast"), Gate("rust-test")} <= ScriptEffect("build")
  {
    var site, check := "site:" + rest, "check:" + rest;
    assert site[0] == 's' && check[0] == 'c' && "site:" <= site && "check" + ":" <= check;
    assert "check" + ":" == "check:";
    assert !("site:" <= check) && !("presite:" <= check) && !("postsite:" <= check);
    RustScript();
    BuildScript();
  }

  lemma NoCommand(script: string, name: string)
    requires script != "" && name != "" && script[0] != name[0]
    ensures !Command(script, name) && !(name <= script) && script != name
  {
    assert (name + ":")[0] == name[0];
  }

  lemma RustScript()
    ensures ScriptEffect("rust:test") == RUST
  {
    NoCommand("rust:test", "check");
    NoCommand("rust:test", "format");
    NoCommand("rust:test", "test");
    assert "rust:test"[0] == 'r';
  }

  lemma BuildScript()
    ensures ScriptEffect("build") == BOTH
  {
    NoCommand("build", "check");
    NoCommand("build", "format");
    NoCommand("build", "test");
    assert "build"[0] == 'b';
  }

  // --- The fixed order ----------------------------------------------------------------------------------------

  /** Each is followed by later ones only. */
  predicate InOrder(ids: seq<string>, r: seq<string>) {
    if r == [] then true
    else if ids == [] then false
    else if r[0] == ids[0] then InOrder(ids[1..], r[1..])
    else InOrder(ids[1..], r)
  }

  lemma {:induction false} FilteredInOrder(ids: seq<string>, all: bool, wanted: set<string>)
    requires Distinct(ids)
    ensures InOrder(ids, Filtered(ids, all, wanted))
    decreases |ids|
  {
    if ids != [] {
      var first, rest := ids[0], Filtered(ids[1..], all, wanted);
      assert forall i | 0 <= i < |ids| - 1 :: ids[1..][i] == ids[i + 1] != first;
      FilteredInOrder(ids[1..], all, wanted);
      if all || first in wanted {
        assert ([first] + rest)[1..] == rest;
      } else {
        assert [] + rest == rest;
        assert rest != [] ==> rest[0] in rest && rest[0] in ids[1..];
      }
    }
  }

  /** The gates and checks of a classification come in the order of their lists. */
  lemma RequiredInOrder(c: Context, paths: seq<string>, r: Classification)
    requires IsClassification(c, paths, r)
    ensures InOrder(["supply-chain", "lint-test-build", "sast", "parser-regressions", "rust-linux", "rust-test",
                     "rust-test-unix", "rust-coverage", "visual-regression", "i18n-audit-sample", "packaged-smoke"],
                    r.requiredGates)
    ensures InOrder(["i18n:check", "check:docs", "check:verified-by", "format:check"], r.requiredChecks)
  {
    hide InOrder, Distinct, Filtered;
    ListsAreDistinct();
    FilteredInOrder(GATES, c.forceFull, WantedGates(c, paths));
    FilteredInOrder(CHECKS, c.forceFull, WantedChecks(paths));
  }

  lemma ListsAreDistinct()
    ensures Distinct(GATES) && Distinct(CHECKS)
  {
    assert |"supply-chain"| == 12 && |"lint-test-build"| == 15 && |"sast"| == 4 && |"parser-regressions"| == 18;
    assert |"rust-linux"| == 10 && |"rust-test"| == 9 && |"rust-test-unix"| == 14 && |"rust-coverage"| == 13;
    assert |"visual-regression"| == 17 && |"i18n-audit-sample"| == 17 && |"packaged-smoke"| == 14;
    assert "visual-regression"[0] == 'v' && "i18n-audit-sample"[0] == 'i';
    assert "rust-test-unix"[0] == 'r' && "packaged-smoke"[0] == 'p';
  }
}
