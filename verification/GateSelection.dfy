/** `classifyChangeSet` of `scripts/checks/classify-changes.ts`: which gates and checks a list of changed paths
    needs. */
module GateSelection {
  import opened Closures
  import opened Graphs
  import opened Lists
  import opened Manifests
  import opened Options
  import opened Strings

  const GATES := ["supply-chain", "lint-test-build", "sast", "parser-regressions", "rust-linux",
                  "rust-test", "rust-test-unix",
                  "rust-coverage", "visual-regression", "i18n-audit-sample", "packaged-smoke"]

  const CHECKS := ["i18n:check", "check:docs", "check:verified-by", "format:check"]

  // --- Paths ----------------------------------------------------------------------------------------------

  /** `replaceAll('\\', '/')`. */
  function Slashed(path: string): (r: string)
    ensures |r| == |path|
  {
    if path == "" then "" else [if path[0] == '\\' then '/' else path[0]] + Slashed(path[1..])
  }

  /** With forward slashes and without a leading `./`. */
  function Normal(path: string): string {
    var s := Slashed(path);
    if "./" <= s then s[2..] else s
  }

  predicate Is(file: string, name: string) { file == name }

  predicate Under(file: string, directory: string) { directory <= file }

  predicate EndsWith(s: string, tail: string) {
    |s| >= |tail| && s[|s| - |tail|..] == tail
  }

  /** `/^head.*tail$/`. */
  predicate Fits(s: string, head: string, tail: string) {
    && |s| >= |head| + |tail| && head <= s && EndsWith(s, tail)
    && forall k | |head| <= k < |s| - |tail| :: !IsLineEnd(s[k])
  }

  /** `/^(?:name(?::|$))/`. */
  predicate Command(s: string, name: string) {
    s == name || name + ":" <= s
  }

  // --- Sorting --------------------------------------------------------------------------------------------

  /** In the order of code points. */
  predicate Before(a: string, b: string) {
    if b == "" then false
    else if a == "" then true
    else if a[0] != b[0] then a[0] < b[0]
    else Before(a[1..], b[1..])
  }

  lemma {:induction false} BeforeIsTotal(a: string, b: string)
    ensures a != b ==> Before(a, b) || Before(b, a)
    ensures !(Before(a, b) && Before(b, a)) && !Before(a, a)
    decreases |a|
  {
    if a != "" {
      BeforeIsTotal(a[1..], a[1..]);
      if b != "" {
        BeforeIsTotal(a[1..], b[1..]);
        assert a == [a[0]] + a[1..] && b == [b[0]] + b[1..];
      }
    }
  }

  lemma {:induction false} BeforeIsTransitive(a: string, b: string, c: string)
    requires Before(a, b) && Before(b, c)
    ensures Before(a, c)
    decreases |a|
  {
    if a != "" && a[0] == b[0] == c[0] {
      BeforeIsTransitive(a[1..], b[1..], c[1..]);
    }
  }

  predicate Ordered(s: seq<string>) {
    forall i, j | 0 <= i < j < |s| :: Before(s[i], s[j])
  }

  function Insert(s: seq<string>, x: string): seq<string> {
    if s == [] || Before(x, s[0]) then [x] + s
    else if x == s[0] then s
    else [s[0]] + Insert(s[1..], x)
  }

  lemma {:induction false} InsertAdds(s: seq<string>, x: string)
    ensures forall y :: y in Insert(s, x) <==> y in s || y == x
    decreases |s|
  {
    if s != [] && !Before(x, s[0]) && x != s[0] {
      InsertAdds(s[1..], x);
      assert forall y :: y in s <==> y == s[0] || y in s[1..];
    }
  }

  lemma OrderedCons(first: string, rest: seq<string>)
    requires Ordered(rest) && forall y | y in rest :: Before(first, y)
    ensures Ordered([first] + rest)
  {
  }

  lemma {:induction false} InsertKeepsOrder(s: seq<string>, x: string)
    requires Ordered(s)
    ensures Ordered(Insert(s, x))
    decreases |s|
  {
    if s == [] {
      assert [x] + s == [x];
    } else if Before(x, s[0]) {
      forall y | y in s ensures Before(x, y) {
        if y != s[0] {
          BeforeIsTransitive(x, s[0], y);
        }
      }
      OrderedCons(x, s);
    } else if x != s[0] {
      InsertKeepsOrder(s[1..], x);
      InsertAdds(s[1..], x);
      BeforeIsTotal(x, s[0]);
      OrderedCons(s[0], Insert(s[1..], x));
    }
  }

  lemma OrderedIsDistinct(s: seq<string>)
    requires Ordered(s)
    ensures Distinct(s)
  {
    forall i, j | 0 <= i < j < |s| ensures s[i] != s[j] {
      BeforeIsTotal(s[i], s[i]);
    }
  }

  lemma SameFirst(a: string, b: string, n: nat)
    requires 0 < n <= |a| && n <= |b| && a[..n] == b[..n]
    ensures a[0] == b[0]
  {
    assert a[..n][0] == b[..n][0];
  }

  /** Which is to say that `a` ends first, or has the smaller character where they first differ. */
  lemma {:induction false} BeforeIs(a: string, b: string)
    ensures Before(a, b) <==>
      exists n :: 0 <= n < |b| && n <= |a| && a[..n] == b[..n] && (n == |a| || a[n] < b[n])
    decreases |a|
  {
    if a != "" && b != "" && a[0] == b[0] {
      BeforeIs(a[1..], b[1..]);
      var a', b' := a[1..], b[1..];
      if n :| 0 <= n < |b'| && n <= |a'| && a'[..n] == b'[..n] && (n == |a'| || a'[n] < b'[n]) {
        assert a[..n + 1] == [a[0]] + a'[..n] && b[..n + 1] == [b[0]] + b'[..n];
      }
      if n :| 0 <= n < |b| && n <= |a| && a[..n] == b[..n] && (n == |a| || a[n] < b[n]) {
        assert n > 0 && a'[..n - 1] == a[..n][1..] && b'[..n - 1] == b[..n][1..];
      }
    } else {
      assert b != "" ==> a[..0] == b[..0];
      if n :| 0 <= n < |b| && n <= |a| && a[..n] == b[..n] && (n == |a| || a[n] < b[n]) {
        if n > 0 {
          SameFirst(a, b, n);
        }
      }
    }
  }

  // --- What one file asks for -----------------------------------------------------------------------------

  /** A gate, that the application changed, or that the website changed. */
  datatype Wish = Gate(id: string) | Application | Site

  const NOTHING: set<Wish> := {}
  const TOOLING := {Gate("lint-test-build")}
  const FRONTEND := {Application, Gate("lint-test-build"), Gate("sast")}
  const RUST := {Gate("rust-test"), Gate("sast")}
  const BOTH := FRONTEND + RUST
  const SITE := {Site}

  function When(c: bool, wishes: set<Wish>): set<Wish> {
    if c then wishes else {}
  }

  /** What a changed npm script asks for. */
  function ScriptEffect(name: string): set<Wish> {
    if "site:" <= name || "presite:" <= name || "postsite:" <= name then SITE
    else if Command(name, "check") || name in {"lint", "typecheck", "coverage"} || Command(name, "format")
         || Command(name, "test")
         || "i18n:" <= name || "licenses:" <= name then TOOLING
    else if name in {"rust:check", "rust:clippy", "rust:test", "rust:coverage"} then RUST
    else BOTH
  }

  predicate WebsiteTest(file: string) {
    || Fits(file, "test/unit/tooling/site", ".test.ts")
    || Fits(file, "test/visual/website-", ".spec.ts") || Is(file, "test/visual/playwright.site.config.ts")
  }

  predicate WebsiteInput(file: string) {
    || Under(file, "site/") || Under(file, "scripts/site/")
    || Under(file, "docs/guide/") || Under(file, "assets/images/")
    || WebsiteTest(file)
    || Is(file, "public/favicon.ico") || Is(file, "playwright.config.ts") || Is(file, ".github/workflows/pages.yml")
  }

  predicate PackageFile(file: string) {
    Is(file, "package.json") || Is(file, "package-lock.json")
  }

  predicate SharedInput(file: string) {
    || Is(file, ".github/workflows/release.yml")
    || Under(file, "src/platform/") || Under(file, "src-tauri/src/commands/")
  }

  predicate RustInput(file: string) {
    || Under(file, "src-tauri/") || Under(file, ".cargo/")
    || Is(file, "Cargo.lock") || Is(file, "rust-toolchain.toml") || Is(file, "scripts/cargo.ts")
  }

  predicate ToolingInput(file: string) {
    || (Under(file, "scripts/checks/") && !Is(file, "scripts/checks/check-bundle-budget.ts"))
    || Under(file, "scripts/coverage/") || Under(file, "test/unit/tooling/")
    || Is(file, ".github/workflows/checks.yml") || Is(file, ".github/workflows/ci.yml")
  }

  predicate FrontendInput(file: string) {
    || Under(file, "src/") || Under(file, "public/") || Under(file, "test/") || Under(file, "scripts/")
    || Fits(file, "tsconfig", ".json")
    || Is(file, "eslint.config.ts") || Is(file, "vitest.config.ts") || Is(file, "vite.config.ts")
    || Is(file, "playwright.config.ts") || Is(file, "index.html")
    || Under(file, ".prettier")
  }

  predicate ProseInput(file: string) {
    || EndsWith(file, ".md") || Under(file, "docs/") || Under(file, "site/") || Under(file, "assets/")
    || Under(file, ".github/")
    || Is(file, "LICENSE") || Is(file, "NOTICE")
    || Is(file, ".gitignore") || Is(file, ".gitattributes") || Is(file, ".editorconfig")
  }

  predicate SmokeInput(file: string) {
    || Is(file, "src-tauri/src/commands/smoke.rs") || Is(file, "src-tauri/src/runtime/shutdown.rs")
    || Is(file, "src-tauri/assets/smoke_test.js") || Is(file, "src-tauri/assets/acl_probe.js")
    || Is(file, "test/unit/tooling/packagedSmoke.test.ts")
    || Under(file, "scripts/packaged-smoke/")
  }

  /** The first branch a file takes. `package.json` with its contents at hand is not asked here. */
  function AreaEffect(file: string, included: bool): set<Wish> {
    if PackageFile(file) then BOTH + SITE
    else if SharedInput(file) then BOTH
    else if RustInput(file) then RUST
    else if Under(file, ".semgrep/") then {Gate("sast")}
    else if Under(file, "scripts/site/") || WebsiteTest(file) then NOTHING
    else if ToolingInput(file) then TOOLING
    else if FrontendInput(file) then FRONTEND
    else if ProseInput(file) then NOTHING
    else When(!included, BOTH + {Gate("parser-regressions")})
  }

  /** What is asked whichever branch was taken. */
  function ExtraEffect(file: string, included: bool): set<Wish> {
    When(included, RUST)
    + When(WebsiteInput(file), SITE)
    + When(Under(file, "src-tauri/src/protocol/") || Under(file, "src-tauri/fuzz/"), {Gate("parser-regressions")})
    + When(Is(file, "src-tauri/src/local_fs/filesystem_safety.rs"), {Gate("rust-test-unix")})
    + When(SmokeInput(file), {Gate("packaged-smoke")})
  }

  datatype PackageChange = PackageChange(before: Package, after: Package)

  datatype Context = Context(forceFull: bool, includes: seq<string>, package: Option<PackageChange>)

  /** From every script of the manifest before or after to the scripts that run it. */
  function Callings(change: PackageChange): Graph<string> {
    CallGraph(AllScripts(change.before, change.after))
  }

  /** The script changed, or it runs a changed one, directly or through others. */
  ghost predicate Affected(change: PackageChange, name: string) {
    exists start :: Differs(change.before, change.after, start) && Reaches(Callings(change), start, name)
  }

  /** The other fields changed, or an affected script asks for `w`. */
  ghost predicate PackageAsks(change: PackageChange, w: Wish) {
    || (change.before.fields != change.after.fields && w in BOTH + SITE)
    || exists name :: Affected(change, name) && w in ScriptEffect(name)
  }

  /** The changed file `file` asks for `w`. */
  ghost predicate Asks(c: Context, file: string, w: Wish) {
    || w in ExtraEffect(file, file in c.includes)
    || if file == "package.json" && c.package.Some? then PackageAsks(c.package.value, w)
       else w in AreaEffect(file, file in c.includes)
  }

  // --- What a list of paths asks for ----------------------------------------------------------------------

  /** `file` is one of the changed files. */
  ghost predicate Changed(paths: seq<string>, file: string) {
    file != "" && exists p :: p in paths && Normal(p) == file
  }

  ghost predicate Asked(c: Context, paths: seq<string>, w: Wish) {
    exists file :: Changed(paths, file) && Asks(c, file, w)
  }

  method ChangedFiles(paths: seq<string>) returns (files: seq<string>)
    ensures Ordered(files) && Distinct(files) && forall f :: f in files <==> Changed(paths, f)
  {
    files := [];
    var n := 0;
    while n < |paths|
      invariant 0 <= n <= |paths| && Ordered(files)
      invariant forall f :: f in files <==> Changed(paths[..n], f)
    {
      var file := Normal(paths[n]);
      ghost var before := files;
      if file != "" {
        InsertAdds(files, file);
        InsertKeepsOrder(files, file);
        files := Insert(files, file);
      }
      forall f ensures f in files <==> Changed(paths[..n + 1], f) {
        assert paths[..n + 1] == paths[..n] + [paths[n]];
        assert f in files <==> f in before || (f == file && file != "");
        assert Changed(paths[..n + 1], f) <==> Changed(paths[..n], f) || (f == file && f != "");
      }
      n := n + 1;
    }
    assert paths[..n] == paths;
    OrderedIsDistinct(files);
  }

  /** `total` is exactly what the items ask for. */
  ghost predicate Sums(asks: (string, Wish) -> bool, items: seq<string>, total: set<Wish>) {
    forall w :: w in total <==> exists i :: i in items && asks(i, w)
  }

  lemma SumsMore(asks: (string, Wish) -> bool, items: seq<string>, total: set<Wish>, item: string, more: set<Wish>)
    requires Sums(asks, items, total) && forall w :: w in more <==> asks(item, w)
    ensures Sums(asks, items + [item], total + more)
  {
    assert forall i :: i in items + [item] <==> i in items || i == item;
  }

  method ScriptsEffect(names: seq<string>) returns (total: set<Wish>)
    ensures forall w :: w in total <==> exists n :: n in names && w in ScriptEffect(n)
  {
    total := {};
    ghost var asks := (n: string, w: Wish) => w in ScriptEffect(n);
    var n := 0;
    while n < |names|
      invariant 0 <= n <= |names| && Sums(asks, names[..n], total)
    {
      assert names[..n + 1] == names[..n] + [names[n]];
      SumsMore(asks, names[..n], total, names[n], ScriptEffect(names[n]));
      total := total + ScriptEffect(names[n]);
      n := n + 1;
    }
    assert names[..n] == names;
    forall w ensures w in total <==> exists n :: n in names && w in ScriptEffect(n) {
      assert forall n :: asks(n, w) <==> w in ScriptEffect(n);
    }
  }

  method PackageEffect(change: PackageChange) returns (total: set<Wish>)
    ensures forall w :: w in total <==> PackageAsks(change, w)
  {
    hide Differs, Callings, Reaches, ScriptEffect;
    var changed := ChangedScripts(change.before, change.after);
    var names := AffectedScripts(AllScripts(change.before, change.after), changed);
    forall x ensures x in names <==> Affected(change, x) {
      AffectedIsReached(change, changed, x);
    }
    var scripts := ScriptsEffect(names);
    total := When(change.before.fields != change.after.fields, BOTH + SITE) + scripts;
  }

  lemma AffectedIsReached(change: PackageChange, changed: seq<string>, x: string)
    requires forall n :: n in changed <==> Differs(change.before, change.after, n)
    ensures Reached(CallGraph(AllScripts(change.before, change.after)), changed, x) <==> Affected(change, x)
  {
    hide Differs, Reaches, CallGraph;
  }

  /** The body of the loop over the changed files. */
  method FileEffect(c: Context, file: string) returns (total: set<Wish>)
    ensures forall w :: w in total <==> Asks(c, file, w)
  {
    var more;
    if file == "package.json" && c.package.Some? {
      more := PackageEffect(c.package.value);
    } else {
      more := AreaEffect(file, file in c.includes);
    }
    total := ExtraEffect(file, file in c.includes) + more;
  }

  method AllEffects(c: Context, files: seq<string>) returns (total: set<Wish>)
    ensures forall w :: w in total <==> exists f :: f in files && Asks(c, f, w)
  {
    total := {};
    ghost var asks := (f: string, w: Wish) => Asks(c, f, w);
    var n := 0;
    while n < |files|
      invariant 0 <= n <= |files| && Sums(asks, files[..n], total)
    {
      var more := FileEffect(c, files[n]);
      assert files[..n + 1] == files[..n] + [files[n]];
      SumsMore(asks, files[..n], total, files[n], more);
      total := total + more;
      n := n + 1;
    }
    assert files[..n] == files;
    forall w ensures w in total <==> exists f :: f in files && Asks(c, f, w) {
      assert forall f :: asks(f, w) <==> Asks(c, f, w);
    }
  }

  // --- Checks -----------------------------------------------------------------------------------------------

  /** `/^src\/.*(?:\.tsx?|\/locales\/[^/]+\.json)$/`. */
  predicate TranslationInput(file: string) {
    || Fits(file, "src/", ".ts") || Fits(file, "src/", ".tsx")
    || exists k | 4 <= k < |file| :: LocaleFrom(file, k)
  }

  /** `/locales/` stands at `k`, and behind it nothing but the name of a JSON file. */
  predicate LocaleFrom(file: string, k: nat) {
    && "src/" <= file && EndsWith(file, ".json") && k + 15 <= |file| && file[k..k + 9] == "/locales/"
    && (forall j | 4 <= j < k :: !IsLineEnd(file[j])) && forall j | k + 9 <= j < |file| - 5 :: file[j] != '/'
  }

  predicate DocsInput(file: string) {
    || Is(file, "package.json") || Is(file, "docs/development.md") || Is(file, "docs/ipc-permissions.md")
    || Is(file, "src-tauri/build.rs") || Is(file, "src-tauri/src/lib.rs")
    || Is(file, "src-tauri/src/runtime/sensitive_plugin.rs")
    || Fits(file, "src-tauri/capabilities/", "")
  }

  predicate VerifiedByInput(file: string) {
    || Fits(file, "docs/guide/", ".md") || Is(file, "docs/manual-checks.md") || EndsWith(file, ".rs")
    || EndsWith(file, ".test.ts") || EndsWith(file, ".test.tsx")
    || EndsWith(file, ".spec.ts") || EndsWith(file, ".spec.tsx")
  }

  /** `/\.[cm]?[jt]sx?$/`. */
  predicate IsScript(file: string) {
    exists m, l, x | m in {"", "c", "m"} && l in {"js", "ts"} && x in {"", "x"} :: EndsWith(file, "." + m + l + x)
  }

  predicate FormatInput(file: string) {
    || IsScript(file) || EndsWith(file, ".json") || EndsWith(file, ".jsonc")
    || EndsWith(file, ".yaml") || EndsWith(file, ".yml")
    || Under(file, ".prettier") || Is(file, ".editorconfig") || Is(file, ".gitignore")
  }

  /** A change of the checks themselves requires them all. */
  predicate CheckTooling(file: string) {
    PackageFile(file) || Is(file, ".github/workflows/checks.yml") || Under(file, "scripts/checks/")
  }

  predicate NeedsCheck(file: string, check: string) {
    || CheckTooling(file)
    || match check
       case "i18n:check" => TranslationInput(file)
       case "check:docs" => DocsInput(file)
       case "check:verified-by" => VerifiedByInput(file)
       case "format:check" => FormatInput(file)
       case _ => false
  }

  ghost predicate CheckAsked(paths: seq<string>, check: string) {
    exists file :: Changed(paths, file) && NeedsCheck(file, check)
  }

  /** `changedFiles.some(...)`. */
  method SomeNeeds(files: seq<string>, check: string) returns (needed: bool)
    ensures needed <==> exists f :: f in files && NeedsCheck(f, check)
  {
    hide NeedsCheck;
    needed := false;
    for n := 0 to |files|
      invariant needed <==> exists i :: 0 <= i < n && NeedsCheck(files[i], check)
    {
      needed := needed || NeedsCheck(files[n], check);
    }
  }

  method RequiredChecks(files: seq<string>) returns (needed: set<string>)
    ensures forall g :: g in needed <==> g in CHECKS && exists f :: f in files && NeedsCheck(f, g)
  {
    hide NeedsCheck;
    needed := {};
    for n := 0 to |CHECKS|
      invariant forall g :: g in needed <==> g in CHECKS[..n] && exists f :: f in files && NeedsCheck(f, g)
    {
      var some := SomeNeeds(files, CHECKS[n]);
      assert CHECKS[..n + 1] == CHECKS[..n] + [CHECKS[n]];
      needed := if some then needed + {CHECKS[n]} else needed;
    }
    assert CHECKS[..|CHECKS|] == CHECKS;
  }

  // --- The classification -----------------------------------------------------------------------------------

  datatype Classification = Classification(
    changedFiles: seq<string>,
    requiredGates: seq<string>,
    requiredChecks: seq<string>,
    toolingOnly: bool,
    site: bool)

  function Filtered(ids: seq<string>, all: bool, wanted: set<string>): (r: seq<string>)
    ensures forall g :: g in r <==> g in ids && (all || g in wanted)
  {
    if ids == [] then []
    else
      assert forall g :: g in ids <==> g == ids[0] || g in ids[1..];
      (if all || ids[0] in wanted then [ids[0]] else []) + Filtered(ids[1..], all, wanted)
  }

  lemma {:induction false} FilteredAlike(ids: seq<string>, all: bool, a: set<string>, b: set<string>)
    requires forall g | g in ids :: g in a <==> g in b
    ensures Filtered(ids, all, a) == Filtered(ids, all, b)
    decreases |ids|
  {
    if ids != [] {
      FilteredAlike(ids[1..], all, a, b);
    }
  }

  ghost function WantedGates(c: Context, paths: seq<string>): (ids: set<string>)
    ensures forall g :: g in ids <==> g in GATES && (g == "supply-chain" || Asked(c, paths, Gate(g)))
  {
    set g | g in GATES && (g == "supply-chain" || Asked(c, paths, Gate(g)))
  }

  ghost function WantedChecks(paths: seq<string>): (ids: set<string>)
    ensures forall g :: g in ids <==> g in CHECKS && CheckAsked(paths, g)
  {
    set g | g in CHECKS && CheckAsked(paths, g)
  }

  method Gates(c: Context, paths: seq<string>, total: set<Wish>) returns (gates: seq<string>)
    requires forall w :: w in total <==> Asked(c, paths, w)
    ensures gates == Filtered(GATES, c.forceFull, WantedGates(c, paths))
  {
    hide Asked;
    var selected := {"supply-chain"} + set g | g in GATES && Gate(g) in total;
    FilteredAlike(GATES, c.forceFull, selected, WantedGates(c, paths));
    gates := Filtered(GATES, c.forceFull, selected);
  }

  method Checks(paths: seq<string>, files: seq<string>, forceFull: bool) returns (checks: seq<string>)
    requires forall f :: f in files <==> Changed(paths, f)
    ensures checks == Filtered(CHECKS, forceFull, WantedChecks(paths))
  {
    hide NeedsCheck;
    var needed := RequiredChecks(files);
    FilteredAlike(CHECKS, forceFull, needed, WantedChecks(paths));
    checks := Filtered(CHECKS, forceFull, needed);
  }

  /** Every gate and every check some changed file asks for, and no other; all of them in a full run. They are in
      their fixed order. */
  ghost predicate IsClassification(c: Context, paths: seq<string>, r: Classification) {
    && Ordered(r.changedFiles)
    && (forall f :: f in r.changedFiles <==> Changed(paths, f))
    && r.requiredGates == Filtered(GATES, c.forceFull, WantedGates(c, paths))
    && r.requiredChecks == Filtered(CHECKS, c.forceFull, WantedChecks(paths))
    && (r.toolingOnly <==> !c.forceFull && !Asked(c, paths, Application))
    && (r.site <==> Asked(c, paths, Site))
  }

  method ClassifyChangeSet(c: Context, paths: seq<string>) returns (r: Classification)
    ensures IsClassification(c, paths, r)
  {
    hide Asks, Changed;
    var files := ChangedFiles(paths);
    var total := AllEffects(c, files);
    forall w ensures w in total <==> Asked(c, paths, w) {
    }
    var gates := Gates(c, paths, total);
    var checks := Checks(paths, files, c.forceFull);
    r := Classification(files, gates, checks, !c.forceFull && Application !in total, Site in total);
  }

  // --- Lists together -------------------------------------------------------------------------------------

  /** Two lists at once change the files that either of them changes. */
  ghost predicate Together(a: seq<string>, b: seq<string>, both: seq<string>) {
    forall f :: Changed(both, f) <==> Changed(a, f) || Changed(b, f)
  }

  /** Two lists at once require exactly the gates and checks that either of them alone requires. */
  lemma ClassifyTogether(c: Context, a: seq<string>, b: seq<string>, both: seq<string>, x: Classification,
      y: Classification, r: Classification)
    requires IsClassification(c, a, x) && IsClassification(c, b, y) && IsClassification(c, both, r)
    requires Together(a, b, both)
    ensures forall f :: f in r.changedFiles <==> f in x.changedFiles || f in y.changedFiles
    ensures forall g :: g in r.requiredGates <==> g in x.requiredGates || g in y.requiredGates
    ensures forall g :: g in r.requiredChecks <==> g in x.requiredChecks || g in y.requiredChecks
    ensures r.site <==> x.site || y.site
    ensures r.toolingOnly <==> x.toolingOnly && y.toolingOnly
  {
    hide Asks, NeedsCheck, Changed;
    forall w ensures Asked(c, both, w) <==> Asked(c, a, w) || Asked(c, b, w) {
    }
    forall g ensures CheckAsked(both, g) <==> CheckAsked(a, g) || CheckAsked(b, g) {
    }
  }

  /** One list behind the other is both at once. */
  lemma ConcatenationIsTogether(a: seq<string>, b: seq<string>)
    ensures Together(a, b, a + b) && Together(b, a, a + b)
  {
    assert forall p :: p in a + b <==> p in a || p in b;
  }

  /** Lists that change the same files have the same classification. */
  lemma SameFilesSameClassification(c: Context, a: seq<string>, b: seq<string>, x: Classification, y: Classification)
    requires IsClassification(c, a, x) && IsClassification(c, b, y) && forall f :: Changed(a, f) <==> Changed(b, f)
    ensures x == y
  {
    hide Asks, NeedsCheck, Changed;
    OrderedIsUnique(x.changedFiles, y.changedFiles);
    forall w ensures Asked(c, a, w) <==> Asked(c, b, w) {
    }
    forall g ensures CheckAsked(a, g) <==> CheckAsked(b, g) {
    }
    FilteredAlike(GATES, c.forceFull, WantedGates(c, a), WantedGates(c, b));
    FilteredAlike(CHECKS, c.forceFull, WantedChecks(a), WantedChecks(b));
  }

  lemma HasMember(t: seq<string>)
    ensures t != [] ==> exists x :: x in t
  {
    if t != [] {
      assert t[0] in t;
    }
  }

  lemma {:induction false} OrderedIsUnique(s: seq<string>, t: seq<string>)
    requires Ordered(s) && Ordered(t) && forall x :: x in s <==> x in t
    ensures s == t
    decreases |s|
  {
    if s == [] {
      HasMember(t);
    } else {
      assert s[0] in t && t[0] in s;
      LeastIsFirst(s, t[0]);
      LeastIsFirst(t, s[0]);
      BeforeIsTotal(s[0], t[0]);
      forall x ensures x in s[1..] <==> x in t[1..] {
        TailHolds(s, x);
        TailHolds(t, x);
      }
      OrderedIsUnique(s[1..], t[1..]);
      assert s == [s[0]] + s[1..] && t == [t[0]] + t[1..];
    }
  }

  lemma LeastIsFirst(s: seq<string>, x: string)
    requires Ordered(s) && x in s
    ensures x == s[0] || Before(s[0], x)
  {
  }

  lemma TailHolds(s: seq<string>, x: string)
    requires Ordered(s) && s != []
    ensures x in s[1..] <==> x in s && x != s[0]
  {
    assert s == [s[0]] + s[1..];
    if x in s[1..] {
      var i :| 0 <= i < |s[1..]| && s[1..][i] == x;
      assert Before(s[0], s[i + 1]);
      BeforeIsTotal(s[0], s[0]);
    }
  }

  /** The same path, but for separators and one leading `./`. */
  predicate SamePath(p: string, q: string) {
    var p', q' := Slashed(p), Slashed(q);
    p' == q' || (p' == "./" + q' && !("./" <= q')) || (q' == "./" + p' && !("./" <= p'))
  }

  lemma SamePathSameFile(p: string, q: string)
    requires SamePath(p, q)
    ensures Normal(p) == Normal(q)
  {
    assert ("./" + Slashed(p))[2..] == Slashed(p) && ("./" + Slashed(q))[2..] == Slashed(q);
  }

  ghost predicate SpelledIn(a: seq<string>, b: seq<string>) {
    forall p | p in a :: exists q :: q in b && SamePath(p, q)
  }

  /** Neither the order of the paths nor their repetitions count, nor how they are spelled. */
  lemma SpellingDoesNotMatter(c: Context, a: seq<string>, b: seq<string>, x: Classification, y: Classification)
    requires IsClassification(c, a, x) && IsClassification(c, b, y) && SpelledIn(a, b) && SpelledIn(b, a)
    ensures x == y
  {
    hide IsClassification, SamePath, Normal;
    SpelledChange(a, b);
    SpelledChange(b, a);
    SameFilesSameClassification(c, a, b, x, y);
  }

  lemma SpelledChange(a: seq<string>, b: seq<string>)
    requires SpelledIn(a, b)
    ensures forall f :: Changed(a, f) ==> Changed(b, f)
  {
    hide SamePath, Normal;
    forall f | Changed(a, f) ensures Changed(b, f) {
      var p :| p in a && Normal(p) == f;
      var q :| q in b && SamePath(p, q);
      SamePathSameFile(p, q);
    }
  }

  // --- Undoing a change of the manifest -----------------------------------------------------------------------

  function Reverted(change: PackageChange): PackageChange {
    PackageChange(change.after, change.before)
  }

  lemma CallingsAlike(change: PackageChange, name: string, x: string)
    ensures x in Succ(Callings(change), name) <==> x in Succ(Callings(Reverted(change)), name)
  {
    var there, back := AllScripts(change.before, change.after), AllScripts(change.after, change.before);
    CallGraphIsCallers(there, name, x);
    CallGraphIsCallers(back, name, x);
    assert forall s :: s in there <==> s in back;
  }

  lemma RevertedAsksTheSame(change: PackageChange, w: Wish)
    ensures PackageAsks(change, w) <==> PackageAsks(Reverted(change), w)
  {
    hide Callings, ScriptEffect, Reaches, Succ;
    forall name, x ensures x in Succ(Callings(change), name) <==> x in Succ(Callings(Reverted(change)), name) {
      CallingsAlike(change, name, x);
    }
    forall start, name
      ensures Reaches(Callings(change), start, name) <==> Reaches(Callings(Reverted(change)), start, name) {
      ReachesAlike(Callings(change), Callings(Reverted(change)), start, name);
    }
  }

  /** Undoing a change of the manifest needs what making it needed. */
  lemma RevertingNeedsTheSame(c: Context, change: PackageChange, paths: seq<string>, x: Classification,
      y: Classification)
    requires IsClassification(c.(package := Some(change)), paths, x)
    requires IsClassification(c.(package := Some(Reverted(change))), paths, y)
    ensures x == y
  {
    hide PackageAsks, NeedsCheck, Changed, Reverted;
    var there, back := c.(package := Some(change)), c.(package := Some(Reverted(change)));
    forall file, w ensures Asks(there, file, w) <==> Asks(back, file, w) {
      RevertedAsksTheSame(change, w);
    }
    OrderedIsUnique(x.changedFiles, y.changedFiles);
    forall w ensures Asked(there, paths, w) <==> Asked(back, paths, w) {
    }
    FilteredAlike(GATES, c.forceFull, WantedGates(there, paths), WantedGates(back, paths));
  }
}
