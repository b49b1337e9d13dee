# Verified models of the transfer client's checks, settings, sessions and drag logic

This project models the parts of the repository whose correctness is hardest to see, and proves what they
promise. Each Dafny module stands for one file of the repository, or for one concern of it.

- **The Rust lexer of the repository's own checks** (`RustLexer`, `Lexemes`, `UnclosedLexemes`, `Sources`,
  `LexerBlanking`, `CodeOnly`, `InlineTests`, `SplitProperties`, `Items`): which characters are code, the split of a file at the
  ranges behind `#[cfg(test)]`, and when such a range is one item.
- **Use declarations and crate paths** (`UseTrees`, `UseTreeExpansion`, `UseTreePrinting`, `UseTreeExactness`,
  `CratePaths`).
- **Import graphs** (`Graphs`, `ImportCycles`, `FeatureGraph`, `FeatureCycles`, `Closures`, `Manifests`,
  `GateSelection`, `GateRequirements`): the two cycle finders, the contraction of file imports to feature dependencies, the closures by
  worklist and the gates and checks a change needs.
- **Settings persistence** (`PersisterModel`, `PersisterSafety`, `PersisterRuns`, `PersisterEvents`,
  `SettingPersister`, `ShutdownWriters`): the single writer that merges changes, waits, retries and is flushed at shutdown.
- **Bounded batches** (`MapSettled`, `MapSettledRuns`, `MapSettledAdmission`): workers over one shared iterator.
- **Sessions** (`SessionModel`, `SessionSafety`, `SessionRuns`, `SessionLaws`, `SessionRegistry`): reference-counted slots and
  the pools that belong to them.
- **Column drag** (`ColumnDrag`, `ColumnDragProperties`), **generated documentation blocks**
  (`GeneratedBlocks`, `GeneratedBlocksProperties`, `GeneratedBlocksText`) and **shortcuts** (`Shortcuts`).

`Options`, `Lists`, `Strings`, `Alphabets` and `Splitting` hold what several of them share. The grammars use the
spelled-out alphabets and none of the modelled code. `dafny verify dfyconfig.toml`
checks everything.

## How the code is modelled

Code that computes with loops and mutable state is a method or a class, proved against functions on values;
the theorems are lemmas about those functions and about whole runs.

- The visitor of `scan` is modelled by the list of the calls it gets; a visitor that stops early reads a prefix
  of that list. Regular expressions of the lexer are written out as predicates, the windows of 260 and 12
  characters included. Characters are code points.
- JavaScript runs without interruption between awaits, so each such stretch is one step of the persister and of
  a batch. The timer may fire at any moment while it is armed. A failed write may have been carried out or not.
  The `finally` that clears `writing` is a step of its own after the drain has ended.
- The methods of the session registry run under its mutexes and are one step each. An `Arc` is a number, and its
  strong count is the number of handles plus registry entries that hold it. Dropping a `SessionLookup` is two
  steps, because the cleanup runs before the slot is released. A guard is not held by a handle being dropped.
- Sets and maps that the source iterates over in insertion order are sequences of keys. The owner of a file is an
  arbitrary function.
- Lengths on screen are reals, and a column keeps its width when it moves.
- An assertion that throws is `None`; a rejection is an outcome.

## Where the code does less than one might expect

- **A flush in the window between the end of a drain and its cleanup** returns the promise of the drain that
  has already ended, and has cancelled the timer of what is pending. It is fulfilled without storing those
  patches, and nothing is scheduled for them. `FlushGuarantee` and `NoLostWakeup` say that this is the only case,
  `LateFlushStoresNothing` shows it. If the cleanup follows at once the case does not arise
  (`PromptClearingMeansNoLateFlush`). It is the one exception to what a shutdown that succeeds has saved
  (`FlushShutdownState`).
- **Two last lookups dropped at the same time** can each see the other's handle in the strong count, and then
  neither removes the empty slot (`OverlappingDropsLeak`). So can a raw handle taken by `get_existing`, and
  `slot_for` registers a slot that no lookup will clean up; outside tests only `get_or_create` calls it.
  `StepLeaksExactly` says when a step leaks, `OneStepDropsLeakNothing` that drops one at a time do not.
- **Literals**: a char literal with `_` among the digits of its code point is read as code, and a raw C string as an
  ordinary one behind a prefix of code, so a backslash or a quote in its text can end it too early or too late.
  `LexemesAreRead` says of every comment and literal whether it is read, `UnderscoreIsNotRead` and
  `RawCStringRunsOn` show the two. A source without such literals is read as written (`SourceIsRead`).
- **A test range is not always one item.** Behind an attribute on a variant, a field or an arm the range runs on past
  the comma or the bracket that ends it (`VariantRunsOn`), as it does for the variant at
  `src-tauri/src/local_fs/staged_copy.rs:18-33`; and it is cut at the first curly brackets of an item's header
  (`ImplementationIsCut`). After `fn f() {}` the Reference ends the item at the bracket; the range takes a `;` behind
  it along (`StatementGoesAlong`). `RangeIsItem` says exactly when it is the item.
- **Use declarations**: `use self::*` expands to the empty path (`SelfGlobIsLost`), of a raw alias or one beyond ASCII
  some characters stay (`RawAliasStays`, `OtherAliasStays`), and a member of a group keeps its leading `::`
  (`RootedMemberStays`). Every other well-formed declaration is expanded exactly (`ExpansionIsExact`), if its white
  space is white space of JavaScript as well; three characters are only Rust's (`RustSpaces`, `OtherSpaceStays`).
- **`mapSettled` with items and a limit below 1** starts no worker and returns an array of holes (`SettledBatch`).
- **Brackets in a test range** are balanced as a count: round, square and curly brackets share one counter.
- **`renderGeneratedBlocks`** refuses its own output when a text holds a marker line, and rewrites the line breaks
  of its own output when a text brings carriage returns into a document without them (`RenderingTextAgain`,
  `MarkerTextIsRefused`, `CrLfTextIsRewritten`).
- **A recorded binding** whose code holds a `+` or is `Ctrl`, `Alt` or `Shift` does not read back
  (`RecordedReadsBack`, `CtrlIsNotReadBack`, `PlusIsNotReadBack`).
- **A script name** that ends in a colon or a hyphen is cut in a command that runs it (`NameIsRead`, `ColonIsCut`).

## Model

| member | source | states |
|---|---|---|
| `Alphabets.WordIs` | `scripts/checks/rust-source.ts:122` | `\w` is the letters of ASCII, the digits and the underscore, spelled out |
| `Alphabets.HexIs` | `scripts/checks/rust-source.ts:135` | the hexadecimal digits, spelled out |
| `Alphabets.SpaceIs` | `scripts/checks/check-rust-boundaries.ts:140` | `\s` is the white space of JavaScript, spelled out |
| `Alphabets.RustSpaces` | `scripts/checks/check-rust-boundaries.ts:140` | of the white space of Rust, exactly three characters are none of JavaScript |
| `RustLexer.Scan` | `scripts/checks/rust-source.ts:91-146` | one scan visits every offset once, in order, with exactly the flags the recursive specification gives; every round of the loop moves the index |
| `RustLexer.ReadToken` | `scripts/checks/rust-source.ts:99-144` | the branch taken at an offset and where its token ends, unterminated comments and literals included |
| `RustLexer.BlockCommentEnd` | `scripts/checks/rust-source.ts:106-117` | the counting loop finds where a nested block comment ends |
| `RustLexer.StringEnd` | `scripts/checks/rust-source.ts:128-130` | the loop over a string body stops at the first quote that no backslash escapes |
| `RustLexer.Skip` | `scripts/checks/rust-source.ts:93-98` | the characters of a token are visited as not code, up to the end of the source at most |
| `RustLexer.TokenEnd` | `scripts/checks/rust-source.ts:99-145` | a token moves the index, and one that is not code and not cut off by the end of the source spans at least two characters |
| `RustLexer.FlagsAreCodeAt` | `scripts/checks/rust-source.ts:91-146` | the list of visited flags and the question whether one offset is code agree |
| `Lexemes.BodyCloses` | `scripts/checks/rust-source.ts:106-117` | a well nested comment body closes exactly the depth it was opened at |
| `Lexemes.PiecesReachQuote` | `scripts/checks/rust-source.ts:128-130` | escapes and plain characters of a string body lead to its closing quote and no earlier one |
| `Lexemes.LexemesAreRead` | `scripts/checks/rust-source.ts:99-144` | for every comment and literal of an independent grammar, C strings, raw C strings and byte chars included: the prefix of a C string or byte char and the hashes behind a raw C string are code, and what is between them is one token that is not code exactly if the lexeme is readable: no `_` in a code point, and a raw C string whose text would do between ordinary quotes (or, without hashes, that ends the source) |
| `Lexemes.LexemeIsOneToken` | `scripts/checks/rust-source.ts:99-144` | such a lexeme is one token of its own length, and not code, exactly if it has no prefix that is read as code and is readable |
| `Lexemes.UnderscoreIsNotRead` | `scripts/checks/rust-source.ts:134-141` | a concrete char literal whose opening quote is code: `_` among the digits of its code point |
| `Lexemes.RawCStringRunsOn` | `scripts/checks/rust-source.ts:121-132` | a concrete raw C string: a backslash in its text hides its closing quote, and the rest of the source is read as literal |
| `Lexemes.LifetimeIsCode` | `scripts/checks/rust-source.ts:134-144` | the quote in front of any name that no second quote follows is code |
| `Lexemes.CloseStands` | `scripts/checks/rust-source.ts:123-125` | the lexer closes a raw string exactly where a quote and as many hashes stand as opened it |
| `UnclosedLexemes.UnclosedRunsOn` | `scripts/checks/rust-source.ts:92-144` | a comment, string or raw string in the middle of which the source ends is one token, not code, up to the end |
| `Sources.SourceIsRead` | `scripts/checks/rust-source.ts:91-146` | for a whole source written as comments, literals, names, lifetimes and marks, all comments and literals readable: the flags of the scan are exactly those of the parts |
| `Sources.SourceIsStripped` | `scripts/checks/rust-source.ts:148-156` | and `codeOnly` leaves exactly the names, lifetimes and marks, and of each comment and literal the prefix and suffix that are read as code |
| `Sources.IdentIsCode` | `scripts/checks/rust-source.ts:99-144` | a character of a name is code, although names hold the letters that prefixes are made of |
| `LexerBlanking.KeptKind` | `scripts/checks/rust-source.ts:99-144` | a token whose characters are unchanged keeps its kind |
| `LexerBlanking.KeptEnd` | `scripts/checks/rust-source.ts:99-144` | and its end |
| `LexerBlanking.NoNewToken` | `scripts/checks/rust-source.ts:99-145` | blanks next to code never complete a comment or literal that was not there |
| `LexerBlanking.BlankedToken` | `scripts/checks/rust-source.ts:91-146` | what blanking does to the flags of one token |
| `LexerBlanking.BlankingKeepsFlags` | `scripts/checks/rust-source.ts:91-146` | blanking whole tokens, under two stated side conditions, leaves every flag outside the blanked part and makes the blanked part code |
| `CodeOnly.CodeOnly` | `scripts/checks/rust-source.ts:149-156` | the array overwritten in place ends as the source with everything but code blanked |
| `CodeOnly.ScanRestarts` | `scripts/checks/rust-source.ts:91-146` | a scan from any token boundary classifies every later character as the whole-file scan does |
| `CodeOnly.FlagsRestart` | `scripts/checks/rust-source.ts:56-60` | the same for all visited flags at once, as `itemEnd` relies on |
| `CodeOnly.QuoteIsNotCode` | `scripts/checks/rust-source.ts:121-133` | no code position holds a double quote |
| `CodeOnly.NoLoneBlank` | `scripts/checks/rust-source.ts:99-144` | a single character between code is never blanked alone |
| `CodeOnly.NotCodeIsBlankable` | `scripts/checks/rust-source.ts:149-156` | what `codeOnly` blanks meets the side conditions of blanking |
| `CodeOnly.StrippedIsCode` | `scripts/checks/rust-source.ts:149-156` | the output of `codeOnly` scans as all code |
| `CodeOnly.StrippingTwiceIsStrippingOnce` | `scripts/checks/rust-source.ts:148-156` | `codeOnly` is idempotent on every source |
| `InlineTests.IsCode` | `scripts/checks/rust-source.ts:44-54` | whether one offset is code; true past the end |
| `InlineTests.FindItemEnd` | `scripts/checks/rust-source.ts:57-83` | the visitor with its depth counter finds the end of the item, from flags that a scan of its own gave |
| `InlineTests.InlineTestRanges` | `scripts/checks/rust-source.ts:31-41` | the loop over regular expression matches with `lastIndex` collects exactly the specified ranges |
| `InlineTests.NextRange` | `scripts/checks/rust-source.ts:34-39` | one round: a rejected match is stepped over, an accepted one moves past its item |
| `InlineTests.RejectedMatch` | `scripts/checks/rust-source.ts:35` | a match outside code starts no range and hides none |
| `InlineTests.AttributeIsCode` | `scripts/checks/rust-source.ts:33-36` | behind an accepted attribute is a token boundary, so the scan of the item agrees with the whole file |
| `InlineTests.BlankIn` | `scripts/checks/rust-source.ts:24-28` | overwrites a stretch of the array with blanks and keeps newlines |
| `InlineTests.SplitInlineTests` | `scripts/checks/rust-source.ts:10-22` | two arrays blanked range by range end as the production half and the test half |
| `InlineTests.InTestIsMembership` | `scripts/checks/rust-source.ts:15-20` | a character is in the test half exactly if it lies in one of the ranges |
| `InlineTests.RangesAreOrdered` | `scripts/checks/rust-source.ts:30-41` | the ranges are ordered and disjoint |
| `InlineTests.RangesStartAfter` | `scripts/checks/rust-source.ts:30-41` | each range begins with an accepted attribute and holds it whole |
| `SplitProperties.HalvesPartitionSource` | `scripts/checks/rust-source.ts:5-22` | each character survives in exactly one half, newlines in both, and overlaying the halves gives the source back |
| `SplitProperties.ItemEndsAtFirstStop` | `scripts/checks/rust-source.ts:56-83` | the answer of `itemEnd` is behind the first `;` at depth 0 or `}` back to depth 0, or the end of the source; whether that is the end of an item, `RangeIsItem` says |
| `Items.RangeIsItem` | `scripts/checks/rust-source.ts:56-83` | for an independent grammar of what an attribute stands on (a header with well nested brackets, then `;`, a block, a comma or the bracket around it all): the range ends where the item ends if and only if a semicolon, or a block that no empty statement follows, comes behind a header without curly brackets, or the item ends right behind the first curly brackets of its header, or its comma ends the source |
| `Items.CurlyHeaderEnds` | `scripts/checks/rust-source.ts:63-80` | with curly brackets in its header, an item is taken to end with the first of them |
| `Items.VariantRunsOn` | `scripts/checks/rust-source.ts:56-83` | a concrete enum variant that ends with its comma and whose range runs on |
| `Items.ImplementationIsCut` | `scripts/checks/rust-source.ts:63-80` | a concrete implementation that is cut behind a block in its type |
| `Items.StatementGoesAlong` | `scripts/checks/rust-source.ts:74-78` | a concrete item whose range takes the empty statement behind its block along |
| `SplitProperties.ItemEnds` | `scripts/checks/rust-source.ts:71-78` | a range that ends before the end of the source ends at a token boundary, behind a `;` or `}` of code, at depth 0 |
| `SplitProperties.RangesAreBalanced` | `scripts/checks/rust-source.ts:56-83` | in a range that ends before the end of the source the code brackets opened and closed are equally many |
| `SplitProperties.HalvesLexAsTheWhole` | `scripts/checks/rust-source.ts:5-22` | lexing either half classifies every surviving character as lexing the whole source did |
| `SplitProperties.StrippingCommutesWithSplitting` | `scripts/checks/rust-source.ts:5-22` | taking the code of a half is the same as taking the half of the code |
| `SplitProperties.AttributesAreInRanges` | `scripts/checks/rust-source.ts:30-41` | every `#[cfg(test)]` of code, wherever it stands, lies in a range |
| `SplitProperties.RangesBeginAtAttributes` | `scripts/checks/rust-source.ts:30-41` | a range begins at exactly those `#[cfg(test)]` of code that stand in no earlier range |
| `SplitProperties.ProductionHasNoTests` | `scripts/checks/rust-source.ts:5-22` | nowhere in the production half the text `#[cfg(test)]` stands as code |
| `SplitProperties.ProductionSplitsIntoItself` | `scripts/checks/rust-source.ts:5-22` | splitting the production half again changes nothing |
| `SplitProperties.TestsKeepTheirRanges` | `scripts/checks/rust-source.ts:30-41` | the test half has the ranges of the source |
| `SplitProperties.TestsSplitIntoThemselves` | `scripts/checks/rust-source.ts:5-22` | splitting the test half again gives it back, with an empty production half |
| `UseTrees.Split` | `scripts/checks/check-rust-boundaries.ts:141-155` | the loop over a list yields its parts between commas at brace depth 0, empty ones left out |
| `UseTreeExpansion.SplitUndoesJoin` | `scripts/checks/check-rust-boundaries.ts:160-169` | splitting at `::` undoes joining, for names |
| `UseTreeExpansion.ExpandReadsText` | `scripts/checks/check-rust-boundaries.ts:156-168` | expanding the text of a nested tree, without white space and aliases, gives what `Reading` says, in order, whatever its groups, globs, trailing commas and leading `::` |
| `UseTreePrinting.ExpansionUndoesPrinting` | `scripts/checks/check-rust-boundaries.ts:137-170` | the same however the declaration is written: any white space, aliases (of a raw or non-ASCII one a part stays), raw and non-ASCII names, and a leading `::` of the whole or of any member |
| `UseTreeExactness.TreePairs` | `scripts/checks/check-rust-boundaries.ts:156-168` | what is read of a tree is the text of its own paths exactly if it is faithful: no raw or non-ASCII alias, no glob of bare `self`, no member that begins with `::` and a name |
| `UseTreeExactness.ExpansionIsExact` | `scripts/checks/check-rust-boundaries.ts:137-170` | the expansion of every well-formed declaration is exactly the list of its paths, in order, if and only if it is faithful but for a `::` in front of the whole |
| `UseTreeExactness.SelfGlobIsLost` | `scripts/checks/check-rust-boundaries.ts:165-166` | a concrete declaration: `self::*` becomes the empty path |
| `UseTreeExactness.RawAliasStays` | `scripts/checks/check-rust-boundaries.ts:138-139` | a concrete declaration with a raw alias: `a as r#b` becomes `a#b` |
| `UseTreeExactness.OtherAliasStays` | `scripts/checks/check-rust-boundaries.ts:138-139` | a concrete declaration with an alias beyond ASCII: it is glued to the path |
| `UseTreeExactness.UnderscoreAliasGoes` | `scripts/checks/check-rust-boundaries.ts:138-140` | concrete declarations with plain aliases: `a as _` and `a as b_1` become `a` |
| `UseTreeExactness.OtherSpaceStays` | `scripts/checks/check-rust-boundaries.ts:140` | a concrete declaration with white space that only Rust knows: it becomes part of a name |
| `UseTreeExactness.RootedMemberStays` | `scripts/checks/check-rust-boundaries.ts:156-168` | a concrete group whose member keeps its leading `::` |
| `CratePaths.PermittedIsPrefix` | `scripts/checks/check-rust-boundaries.ts:314` | the test on the text with `::` behind both sides holds exactly if the segments are a prefix |
| `CratePaths.Resolve` | `scripts/checks/check-rust-boundaries.ts:209-215` | the file of the longest prefix that is a module |
| `CratePaths.Absolute` | `scripts/checks/check-rust-boundaries.ts:189-206` | the three kinds of written paths; a path that is no child module leaves the crate |
| `CratePaths.ClimbLeaves` | `scripts/checks/check-rust-boundaries.ts:196-201` | of any leading `self` and `super`, each `super` leaves one module and stops at the root, and `self` leaves none |
| `CratePaths.SelfIsHere` | `scripts/checks/check-rust-boundaries.ts:196-201` | `self::a` is `a` in the module itself, `super::a` in the one around it |
| `Graphs.EdgesAre` | `scripts/checks/check-rust-boundaries.ts:362` | the edges of a graph are those its lists hold, none for a file that is no key |
| `ImportCycles.FindCycle` | `scripts/checks/check-rust-boundaries.ts:351-375` | a nonempty answer is a closed walk along real edges; the answer is empty exactly if the graph has no cycle; the search ends |
| `ImportCycles.CycleFinder.Visit` | `scripts/checks/check-rust-boundaries.ts:356-369` | one call either finds a real cycle or leaves the stack as it was with the file finished |
| `ImportCycles.CycleFinder.VisitTargets` | `scripts/checks/check-rust-boundaries.ts:362-365` | after the loop without a cycle every target is finished |
| `ImportCycles.CycleFinder.Closing` | `scripts/checks/check-rust-boundaries.ts:357` | meeting a file on the stack closes a cycle |
| `FeatureGraph.WalkFile` | `scripts/checks/check-feature-boundaries.ts:211-224` | the worklist finds exactly the other features whose files are reached through unowned files only |
| `FeatureGraph.ContractToFeatures` | `scripts/checks/check-feature-boundaries.ts:196-228` | feature a has the edge b exactly if some file of a reaches a file of b through unowned files only |
| `FeatureGraph.WalkContracts` | `scripts/checks/check-feature-boundaries.ts:187-195` | every walk of files from a feature to another has a walk of dependencies between them |
| `FeatureGraph.MutualImportsAreACycle` | `scripts/checks/check-feature-boundaries.ts:187-195` | two features whose files reach each other lie on one cycle of the contracted graph |
| `FeatureCycles.RankedReports` | `scripts/checks/check-feature-boundaries.ts:257-272` | if every feature left for good has only earlier left or reported successors, every cycle goes through a report |
| `FeatureCycles.CycleWalk.Visit` | `scripts/checks/check-feature-boundaries.ts:259-269` | the walk reports only features on a cycle, and a feature it was called for is finished or, when it is being visited, reported |
| `FeatureCycles.CycleWalk.VisitDependencies` | `scripts/checks/check-feature-boundaries.ts:266` | after the loop every dependency is finished or reported |
| `FeatureCycles.ReportCycles` | `scripts/checks/check-feature-boundaries.ts:257-272` | every report names a feature on a cycle and every cycle goes through a reported feature; so there is no report exactly if the contracted graph is acyclic |
| `FeatureCycles.CheckFeatures` | `scripts/checks/check-feature-boundaries.ts:257-272` | the same said of the file graph: each report is on a dependency cycle, every dependency cycle goes through a reported feature, and there is no report exactly if there is no such cycle |
| `FeatureCycles.NothingIsHidden` | `scripts/checks/check-feature-boundaries.ts:190-194` | without a dependency cycle no two distinct features reach each other by imports, however hidden |
| `Closures.StaticClosure` | `scripts/checks/check-bundle-budget.ts:50-65` | exactly the files and stylesheets of the entries reached by static imports; fails exactly if one of them is missing |
| `Closures.EntriesAre` | `scripts/checks/check-bundle-budget.ts:58-62` | what the closure takes of an entry is its file and its stylesheets, and what it follows are its static imports |
| `Closures.ClosedIsReached` | `scripts/checks/check-bundle-budget.ts:50-65` | a closed set that only grows by edges is the set of reached vertices |
| `Closures.AddCallers` | `scripts/checks/classify-changes.ts:119-127` | the inner loop adds exactly the scripts that run one script |
| `Closures.AffectedScripts` | `scripts/checks/classify-changes.ts:113-128` | the set that grows while it is walked over is exactly the changed scripts and all that run them, directly or through others |
| `GateSelection.BeforeIs` | `scripts/checks/classify-changes.ts:78` | the order of the changed files: the one that ends first, or has the smaller character where two first differ, comes first |
| `GateSelection.ChangedFiles` | `scripts/checks/classify-changes.ts:74-78` | the changed files are the normalised paths, each once, sorted, without empty ones |
| `Manifests.CommandIsRead` | `scripts/checks/classify-changes.ts:119-127` | of a command written as steps joined by `&&`, exactly the scripts are found that its steps run, whatever their arguments |
| `Manifests.NameIsRead` | `scripts/checks/classify-changes.ts:122` | a name of letters, digits, colons and hyphens is found as it is written exactly if it does not end in a colon or a hyphen |
| `Manifests.ColonIsCut` | `scripts/checks/classify-changes.ts:122` | a concrete command whose script name is cut at its last colon |
| `Manifests.CommandIs` | `scripts/checks/classify-changes.ts:107-116` | the command of a script is the one its object lists |
| `Manifests.CallersAre` | `scripts/checks/classify-changes.ts:119-127` | one script calls another exactly if a command of it before or after runs that one |
| `Manifests.ChangedScripts` | `scripts/checks/classify-changes.ts:113-117` | exactly the scripts that were added, removed or whose command is not the same, each once |
| `GateSelection.PackageEffect` | `scripts/checks/classify-changes.ts:106-139` | what a change of the manifest asks for: what its changed scripts and all that run them before or after ask for, and everything if other fields differ |
| `GateSelection.FileEffect` | `scripts/checks/classify-changes.ts:97-213` | one round of the loop adds exactly what its file asks for |
| `GateSelection.RequiredChecks` | `scripts/checks/classify-changes.ts:215-247` | exactly the checks that some changed file needs; a change of the checks themselves needs all |
| `GateSelection.ClassifyChangeSet` | `scripts/checks/classify-changes.ts:68-256` | the required gates and checks are, in their fixed order, exactly those some changed file asks for, or all in a full run; likewise for the two flags |
| `GateSelection.ClassifyTogether` | `scripts/checks/classify-changes.ts:68-256` | the classification of two lists at once has the files, gates, checks and flags of either: for any three classifications of lists of which the third changes what the first two change |
| `GateSelection.ConcatenationIsTogether` | `scripts/checks/classify-changes.ts:74-78` | one list behind the other is such a third list |
| `GateSelection.SameFilesSameClassification` | `scripts/checks/classify-changes.ts:68-256` | two lists that change the same files have equal classifications, the sorted files included |
| `GateSelection.SpellingDoesNotMatter` | `scripts/checks/classify-changes.ts:74-78` | order, repetitions, separators and a leading `./` of the paths do not matter |
| `GateSelection.RevertingNeedsTheSame` | `scripts/checks/classify-changes.ts:106-139` | undoing a change of the manifest is classified as making it |
| `GateRequirements.PlainPath` | `scripts/checks/classify-changes.ts:74-78` | the file that a path names |
| `GateRequirements.RustRequires` | `scripts/checks/classify-changes.ts:143-156` | everything below `src-tauri/` requires the Rust tests and the analysis |
| `GateRequirements.ParsersRequire` | `scripts/checks/classify-changes.ts:196-198` | the protocols and what fuzzes them require the parser regressions |
| `GateRequirements.SourcesRequire` | `scripts/checks/classify-changes.ts:173-182` | everything below `src/` requires the build, the analysis and the application |
| `GateRequirements.PlatformRequires` | `scripts/checks/classify-changes.ts:143-148` | everything below `src/platform/` requires the Rust tests as well |
| `GateRequirements.GuideRequires` | `scripts/checks/classify-changes.ts:99-105` | the user guide requires the website |
| `GateRequirements.LockRequires` | `scripts/checks/classify-changes.ts:140-142` | other versions of the packages require both sides and the website |
| `GateRequirements.RulesRequire` | `scripts/checks/classify-changes.ts:157-158` | the rules of the analysis require it |
| `GateRequirements.ChecksRequire` | `scripts/checks/classify-changes.ts:165-172` | a change of the checks requires their own tests |
| `GateRequirements.BudgetRequires` | `scripts/checks/classify-changes.ts:165-182` | but the budget of the bundles is part of the application |
| `GateRequirements.IncludedRequires` | `scripts/checks/classify-changes.ts:98` | a file that a binary includes requires the Rust tests and the analysis |
| `GateRequirements.UnknownRequires` | `scripts/checks/classify-changes.ts:192-195` | a file at an unknown place requires everything on both sides and the parser regressions |
| `GateRequirements.PlatformTestsRequired` | `scripts/checks/classify-changes.ts:199-213` | which files require the Unix tests and the packaged application |
| `GateRequirements.DocumentsRequireNothing` | `scripts/checks/classify-changes.ts:183-191` | other documents, when no binary includes them, require exactly the supply chain, no application and no website |
| `GateRequirements.SourcesNeedTranslations` | `scripts/checks/classify-changes.ts:224-244` | the sources of the frontend require the check of the translations and of the format |
| `GateRequirements.LocalesNeedTranslations` | `scripts/checks/classify-changes.ts:224-244` | so does every locale file |
| `GateRequirements.RustNeedsVerifiedBy` | `scripts/checks/classify-changes.ts:231-237` | every Rust source requires the check of what verifies a requirement |
| `GateRequirements.ChecksNeedAll` | `scripts/checks/classify-changes.ts:215-222` | a change below `scripts/checks/` requires exactly all four checks |
| `GateRequirements.ScriptsAsk` | `scripts/checks/classify-changes.ts:128-138` | what a changed script of the website, a check, a Rust script and the build ask for |
| `GateRequirements.RequiredInOrder` | `scripts/checks/classify-changes.ts:221-252` | gates and checks come in their fixed order |
| `PersisterSafety.StepKeeps` | `src/platform/persistSetting.ts:36-81` | every change, timer, flush, applied or failed or successful write and cleanup keeps the invariant of the protocol |
| `PersisterRuns.PrefixConsistency` | `src/platform/persistSetting.ts:36-81` | in every run what is stored is the merge of a prefix of all patches, the prefix never shrinks, and stored, in-flight and pending together merge to all patches |
| `PersisterRuns.OneWriteAtATime` | `src/platform/persistSetting.ts:64-71` | at most one drain, and so one write, is in flight |
| `PersisterRuns.FlushGuarantee` | `src/platform/persistSetting.ts:64-71` | a fulfilled flush that was not late has stored every patch passed before it was called; when the promise of a flush is fulfilled, it was late exactly if some of those patches are still merged into what is pending (late: called between the end of a drain and its cleanup with patches pending) |
| `PersisterRuns.PromptClearingMeansNoLateFlush` | `src/platform/persistSetting.ts:67-69` | if the cleanup follows the end of a drain at once, no flush is late |
| `PersisterRuns.NoLostWakeup` | `src/platform/persistSetting.ts:36-81` | patches wait without a timer, a drain or a reported failure exactly if the last flush was late and nothing was passed since |
| `PersisterRuns.NoEndlessRetry` | `src/platform/persistSetting.ts:36-62` | one drain writes at most once more than there were changes during it, whatever the backend answers |
| `PersisterEvents.FailureIsRetried` | `src/platform/persistSetting.ts:53-60` | after a failed write everything that is not stored is sent again at once in the same drain, exactly if something was passed since the write was sent; if not, the drain ends rejected |
| `PersisterEvents.SuccessGoesOn` | `src/platform/persistSetting.ts:37-53` | after a write that succeeded the drain sends what was passed meanwhile, or ends fulfilled |
| `PersisterEvents.WriteWasSent` | `src/platform/persistSetting.ts:36-42` | every write in flight was sent at some step, the last one that sent in its drain |
| `PersisterEvents.PromiseTells` | `src/platform/persistSetting.ts:64-71` | the promise of a drain is rejected exactly if the last answer to it was a failure |
| `PersisterEvents.TimerIsArmed` | `src/platform/persistSetting.ts:64-81` | the timer is armed exactly from a change on to the next flush or firing |
| `PersisterEvents.FailureIsReported` | `src/platform/persistSetting.ts:51-57` | a failure is reported exactly from its answer on up to the next answer that is none |
| `SettingPersister.Persister.PersistSetting` | `src/platform/persistSetting.ts:74-81` | merges, counts a revision and arms the timer, and nothing else |
| `SettingPersister.Persister.Drain` | `src/platform/persistSetting.ts:37-41` | the head of the loop takes all that is pending, or ends the drain |
| `SettingPersister.Persister.Flush` | `src/platform/persistSetting.ts:64-71` | cancels the timer and starts a drain unless one is there, whose promise it returns |
| `SettingPersister.Persister.TimerFired` | `src/platform/persistSetting.ts:78-80` | the timer does what a flush does |
| `SettingPersister.Persister.WriteAnswered` | `src/platform/persistSetting.ts:42-60` | success goes on; failure puts the patch back under what is pending and ends the drain unless something was passed meanwhile |
| `SettingPersister.Persister.DrainSettled` | `src/platform/persistSetting.ts:67-69` | the cleanup clears `writing` |
| `SettingPersister.LateFlushStoresNothing` | `src/platform/persistSetting.ts:64-71` | a concrete run in which a late flush is fulfilled with its patch neither stored nor scheduled |
| `ShutdownWriters.Writers.RegisterShutdownWriter` | `src/platform/shutdownPersistence.ts:5-10` | a later owner replaces an earlier one of its name |
| `ShutdownWriters.Writers.Dispose` | `src/platform/shutdownPersistence.ts:7-9` | the disposer removes its own registration only |
| `ShutdownWriters.LastOwnerStays` | `src/platform/shutdownPersistence.ts:4-10` | over any history a name has exactly its last registration, until that one is disposed |
| `ShutdownWriters.FulfilledIsSaved` | `src/platform/shutdownPersistence.ts:12-18` | a persister whose flush, called at or after the shutdown, was fulfilled has stored all patches passed before the shutdown was called, or its flush was late and left some waiting; a flush that was not late leaves none |
| `ShutdownWriters.Writers.FlushShutdownState` | `src/platform/shutdownPersistence.ts:12-18` | true exactly if the flush of every registered owner was fulfilled, as read from the runs of the owners; and if true, every registered owner has stored all that was passed before the call, or its flush was late and left something waiting |
| `MapSettled.Batch.Start` | `src/shared/lang.ts:68` | the workers start one after another, each running to its first await |
| `MapSettled.Batch.Loop` | `src/shared/lang.ts:54-67` | a worker takes items from the shared iterator until it awaits one or none are left |
| `MapSettled.Batch.Settle` | `src/shared/lang.ts:60-65` | a settled task stores its outcome and its worker goes on |
| `MapSettledRuns.RunKeeps` | `src/shared/lang.ts:43-70` | the invariant of the pool over every schedule |
| `MapSettledRuns.EachItemOnce` | `src/shared/lang.ts:50-67` | every index is handed out once and in order, at most `limit` tasks run at a time and on different items, and an outcome is that of its own item |
| `MapSettledRuns.SettledBatch` | `src/shared/lang.ts:33-70` | a finished batch has an outcome for every item exactly if there are no items or `limit` is at least 1; skipped items form a suffix, nonempty only after a rejection with `stopOnError` |
| `MapSettledAdmission.PlacesAreTaken` | `src/shared/lang.ts:54-68` | while no failure has stopped the batch and items are left, exactly as many tasks are awaited as the limit and the items allow |
| `MapSettledAdmission.StepAdmitsNothing` | `src/shared/lang.ts:55-65` | with `stopOnError`, the step that settles a failing task admits nothing, nor does any step after it |
| `MapSettledAdmission.NothingIsAdmittedAfterFailure` | `src/shared/lang.ts:55-65` | once a failure has stopped the batch nothing more is called, whatever the schedule |
| `MapSettledAdmission.NothingIsCalledAfterThrow` | `src/shared/lang.ts:60-65` | with `stopOnError`, a task that throws at once is the last that is called |
| `MapSettledAdmission.EveryItemIsCalled` | `src/shared/lang.ts:55-66` | without it every item is called |
| `MapSettledRuns.EveryBatchSettles` | `src/shared/lang.ts:37-41` | a schedule has no more steps than items, and while the batch is not finished some task is awaited |
| `MapSettledRuns.MapWithConcurrency` | `src/shared/lang.ts:76-85` | its result is an answer in the sense of `IsAnswer`: the rejection of lowest index or all values in order |
| `MapSettledRuns.AnswerIsDetermined` | `src/shared/lang.ts:72-85` | for every finished run, whatever its limit and schedule: what fits the outcomes of the last pool as an answer is exactly what the tasks by themselves say, the failure of the first item that fails or all values in order |
| `MapSettledRuns.SameAnswer` | `src/shared/lang.ts:72-85` | two finished runs over the same items have the same answer |
| `SessionSafety.CountIsTwo` | `src-tauri/src/session.rs:181-183` | with the registry and one handle the strong count is 2 exactly if nobody else holds the slot |
| `SessionSafety.OnlyHolder` | `src-tauri/src/session.rs:179-185` | when a slot may be removed, only the caller holds it |
| `SessionSafety.StepKeeps` | `src-tauri/src/session.rs:53-191` | every step of every method, lock and drop keeps the invariant of the registry |
| `SessionRuns.LiveLookupsShareTheSlot` | `src-tauri/src/session.rs:89-125` | live lookups of an id with no removal between them share one slot, and it is the registered one as long as none followed |
| `SessionRuns.RemovedSlotsTakeNoPool` | `src-tauri/src/session.rs:65-84` | after `remove` nobody who holds the old slot can attach a pool, not even to a new slot of the id; every pool belongs to the slot its id has |
| `SessionRuns.RemovedSlotsRemoveNothing` | `src-tauri/src/session.rs:176-191` | nor can anyone who holds it take out what the id has now: a late teardown never deletes a replacement |
| `SessionRuns.RemoveRetires` | `src-tauri/src/session.rs:54-63` | `remove` retires the slot and cancels and removes its pool |
| `SessionRuns.RetiredForGood` | `src-tauri/src/session.rs:53-191` | a slot taken out of the registry never comes back |
| `SessionRuns.StepLeaksExactly` | `src-tauri/src/session.rs:29-45` | a step leaves a registered slot that is neither occupied nor held by a lookup exactly in three named situations |
| `SessionRuns.SlotForLeaksExactly` | `src-tauri/src/session.rs:112-117` | a slot made for a raw handle leaks, one that was there does not |
| `SessionRuns.NoSlotIsLeaked` | `src-tauri/src/session.rs:29-45` | runs without those situations leak no slot |
| `SessionRuns.OneStepDropsLeakNothing` | `src-tauri/src/session.rs:41-45` | if each drop runs to its end before anything else and no raw handle is taken, no slot is leaked |
| `SessionRuns.OverlappingDropsLeak` | `src-tauri/src/session.rs:41-45` | a concrete run of two overlapping drops that leaks one |
| `SessionLaws.Registration` | `src-tauri/src/session.rs:53-191` | an id is registered after a step exactly if the step creates it, or it was registered and is neither removed nor cleaned up while forsaken: empty, unlocked and held by the cleaner alone; its slot never changes |
| `SessionLaws.OccupiedSlotsStay` | `src-tauri/src/session.rs:176-191` | a slot with a session in it leaves the registry by `remove` only |
| `SessionLaws.NewHandlesAre` | `src-tauri/src/session.rs:53-125` | which slot each method hands out: the registered one, a new one, a detached one nobody knows, or the removed one |
| `SessionLaws.OldHandlesStay` | `src-tauri/src/session.rs:29-45` | all other handles stay, with their slots, until they are dropped |
| `SessionLaws.PoolsAre` | `src-tauri/src/session.rs:54-84` | an id has a pool after a step exactly if the step attaches one through a holder of its slot, or it had one and is not taken out |
| `SessionLaws.CancelledAre` | `src-tauri/src/session.rs:54-63` | pools are cancelled by `remove` and by nothing else |
| `SessionLaws.RemoveCancelsThePool` | `src-tauri/src/session.rs:54-84` | in every run: a pool that was attached to an id is cancelled when the id is removed, unless a cleanup or another pool came first |
| `SessionRegistry.Sessions.LookupSlot` | `src-tauri/src/session.rs:90-96` | a known slot or a detached one; nothing is registered |
| `SessionRegistry.Sessions.RegisteredSlot` | `src-tauri/src/session.rs:113-116` | the registered slot, made if there is none; nothing else changes |
| `SessionRegistry.Sessions.SlotFor` | `src-tauri/src/session.rs:112-117` | a raw handle of the registered slot, which is made if there is none |
| `SessionRegistry.Sessions.GetOrCreate` | `src-tauri/src/session.rs:119-125` | a lookup of the registered slot |
| `SessionRegistry.Sessions.GetExisting` | `src-tauri/src/session.rs:85-87` | a raw handle if there is a slot |
| `SessionRegistry.Sessions.Remove` | `src-tauri/src/session.rs:54-63` | takes slot and pool out and cancels the pool |
| `SessionRegistry.Sessions.RegisterPool` | `src-tauri/src/session.rs:66-84` | attaches a pool exactly if the caller holds the registered slot |
| `SessionRegistry.Sessions.RemoveIfEmpty` | `src-tauri/src/session.rs:179-191` | removes exactly if identity, count, lock and emptiness allow it |
| `SessionRegistry.Sessions.BeginDrop` | `src-tauri/src/session.rs:41-45` | the first half of a drop: cleaning up while the slot is still held |
| `SessionRegistry.Sessions.EndDrop` | `src-tauri/src/session.rs:30-34` | the second half: the slot is released |
| `ColumnDrag.MeasureOrderRects` | `src/hooks/useColumnDragReorder.ts:71-118` | the running cursor gives each visible column its rectangle, in both directions |
| `ColumnDrag.Evaluate` | `src/hooks/useColumnDragReorder.ts:206-236` | the loop over the columns and the two splices: nothing, or the order with the column moved to the target |
| `ColumnDragProperties.FirstRect` | `src/hooks/useColumnDragReorder.ts:101-116` | the first column that is shown stands at the start of the row |
| `ColumnDragProperties.NextRect` | `src/hooks/useColumnDragReorder.ts:101-116` | each further one stands behind the one before, with the gap between them, in both directions |
| `ColumnDragProperties.CrossedOnScreen` | `src/hooks/useColumnDragReorder.ts:217-225` | a column is crossed when the pointer is past its midpoint by more than 8 pixels, or a quarter of a column narrower than 32 |
| `ColumnDragProperties.CrossedAlong` | `src/hooks/useColumnDragReorder.ts:217-225` | the test for both directions is one test in reading direction |
| `ColumnDragProperties.ZonesInOrder` | `src/hooks/useColumnDragReorder.ts:220-225` | the hysteresis zones of visible columns do not overlap and come in order |
| `ColumnDragProperties.TargetIs` | `src/hooks/useColumnDragReorder.ts:216-227` | the target is the crossed column farthest from the dragged one |
| `ColumnDragProperties.OneSide` | `src/hooks/useColumnDragReorder.ts:217-227` | columns on both sides are never crossed at once |
| `ColumnDragProperties.ReorderIsStable` | `src/hooks/useColumnDragReorder.ts:206-236` | after a reorder, evaluating again at the same pointer changes nothing |
| `ColumnDragProperties.JumpIsSwaps` | `src/hooks/useColumnDragReorder.ts:209-232` | jumping over several columns gives the order that swapping with one neighbour after another gives |
| `ColumnDragProperties.UndoNeedsTravel` | `src/hooks/useColumnDragReorder.ts:216-227` | undoing a reorder forwards needs pointer travel of more than the dragged width, the gap and twice the hysteresis |
| `ColumnDragProperties.UndoBackwardsNeedsTravel` | `src/hooks/useColumnDragReorder.ts:216-227` | the same backwards |
| `GeneratedBlocks.RenderLines` | `scripts/checks/check-generated-docs.ts:91-131` | the loop with its index, output and seen set renders exactly the segments of the document, or fails |
| `GeneratedBlocks.NextSegment` | `scripts/checks/check-generated-docs.ts:96-126` | one line outside blocks, or one whole block; fails exactly where the markers are not well nested |
| `GeneratedBlocks.FindClose` | `scripts/checks/check-generated-docs.ts:113-124` | the inner loop finds the closing line of the block unless another marker or the end comes first |
| `GeneratedBlocks.Refused` | `scripts/checks/check-generated-docs.ts:107-108` | an unknown or repeated block makes the whole rendering fail |
| `GeneratedBlocksProperties.ParseIsSound` | `scripts/checks/check-generated-docs.ts:95-127` | segments read from lines are well nested and write those lines |
| `GeneratedBlocksProperties.ParseIsComplete` | `scripts/checks/check-generated-docs.ts:95-127` | well nested segments are read back from their lines |
| `GeneratedBlocksProperties.RenderingSucceeds` | `scripts/checks/check-generated-docs.ts:99-131` | rendering succeeds exactly if the markers are well nested and the given blocks are there exactly once each |
| `GeneratedBlocksProperties.RenderingFillsBlocks` | `scripts/checks/check-generated-docs.ts:95-132` | a document made of segments renders to those segments with the blocks filled |
| `GeneratedBlocksProperties.FillKeepsOutside` | `scripts/checks/check-generated-docs.ts:100-125` | every line outside a block is unchanged and each block holds the lines of its text |
| `GeneratedBlocksProperties.RenderingAgain` | `scripts/checks/check-generated-docs.ts:84-133` | rendering the result again gives it back, or fails exactly if some text holds a marker line |
| `GeneratedBlocksText.RenderGeneratedBlocks` | `scripts/checks/check-generated-docs.ts:84-133` | the whole function from text to text, with its choice of line breaks |
| `GeneratedBlocksText.BlockText` | `scripts/checks/check-generated-docs.ts:125` | the lines of a block, joined, are its text without trailing line breaks |
| `GeneratedBlocksText.TextOfBlock` | `scripts/checks/check-generated-docs.ts:125` | a text is what its block holds and the line breaks that come last |
| `GeneratedBlocksText.IdsAre` | `scripts/checks/check-generated-docs.ts:15-16` | an id is made of small letters, digits and hyphens |
| `GeneratedBlocksText.CommandsAreAnId` | `scripts/checks/check-generated-docs.ts:15-16` | a concrete id |
| `GeneratedBlocksText.UpToDateIsKept` | `scripts/checks/check-generated-docs.ts:84-133` | a document whose blocks hold their texts already is rendered as it is, with the line breaks that it has |
| `GeneratedBlocksText.JoinedReadsBack` | `scripts/checks/check-generated-docs.ts:89-90` | lines joined with either line break are read back and written alike |
| `GeneratedBlocksText.RenderingTextAgain` | `scripts/checks/check-generated-docs.ts:84-133` | the function is idempotent exactly if no text holds a marker line and none brings a carriage return and line feed into a document without |
| `GeneratedBlocksText.MarkerTextIsRefused` | `scripts/checks/check-generated-docs.ts:84-133` | a concrete document whose text is its own opening marker is rendered, and the rendering refused |
| `GeneratedBlocksText.CrLfTextIsRewritten` | `scripts/checks/check-generated-docs.ts:89-90` | a concrete text with the other line break, whose rendering is not given back |
| `Splitting.JoiningUndoesSplitting` | `scripts/checks/check-generated-docs.ts:90` | joining undoes splitting |
| `Splitting.SplittingUndoesJoining` | `src/shortcuts/bindings.ts:57` | splitting undoes joining parts without the mark |
| `Shortcuts.BindingFromEvent` | `src/shortcuts/bindings.ts:37-45` | the parts pushed for an event join to its canonical text; nothing for a bare modifier |
| `Shortcuts.Parse` | `src/shortcuts/bindings.ts:55-75` | a parsed code is a key code and holds no `+` |
| `Shortcuts.FormatBinding` | `src/shortcuts/bindings.ts:94-103` | the display text, empty for an invalid binding |
| `Shortcuts.RecordedText` | `src/shortcuts/bindings.ts:37-45` | the text of an event: the control or command key, alt, shift and the code, in this order |
| `Shortcuts.ParseTells` | `src/shortcuts/bindings.ts:55-75` | a text is a binding exactly if behind different modifiers, in any order, a key code comes; and which binding |
| `Shortcuts.ShownCodes` | `src/shortcuts/bindings.ts:28-34` | letters and digits are shown without the beginning of their codes, arrows as arrows, the comma as one |
| `Shortcuts.OtherCodes` | `src/shortcuts/bindings.ts:28-34` | other keys are shown by their codes |
| `Shortcuts.ShownText` | `src/shortcuts/bindings.ts:94-103` | the text shown of a binding |
| `Shortcuts.RecordedReadsBack` | `src/shortcuts/bindings.ts:35-75` | parsing a recorded binding gives the normalised event exactly if its code holds no `+` and is no modifier name |
| `Shortcuts.CtrlIsNotReadBack` | `src/shortcuts/bindings.ts:58-64` | a concrete recorded binding that is no binding: the key `Ctrl` |
| `Shortcuts.PlusIsNotReadBack` | `src/shortcuts/bindings.ts:57` | a concrete recorded binding that is no binding: a code with a `+` |
| `Shortcuts.RecordedMatches` | `src/shortcuts/bindings.ts:81-90` | an event triggers what another recorded exactly if both normalise alike |
| `Shortcuts.RecordingAgain` | `src/shortcuts/bindings.ts:35-103` | whatever event triggers a valid binding records one and the same text, with the same matches and the same display |
| `Shortcuts.SameMatches` | `src/shortcuts/bindings.ts:55-90` | two valid bindings are triggered by the same events exactly if they are recorded alike |

## Left out

- Errors as text: the messages of assertions and checks, with file names and line numbers, and which of several failing assertions comes first.
- The callbacks of the settings persister (`report`, `withdraw`) and what they do; callbacks that call back into the persister at once.
- Pairs of surrogates: the lexer's and the path splitter's offsets count code points here and UTF-16 units in the source, and a window of 12 units may hold fewer characters.
- The extraction of `use` declarations, inline paths, imports and module files by regular expressions and from disk.
- The allow-list walk of `runRustBoundaryCheck`, sibling command modules and the other single-edge rules of the two boundary checks: each is one branch over the modelled parts.
- `startupGraphs` and the size budgets: they call `staticClosure` once per window.
- GateSelection.ClassifyChangeSet: takes the paths and the two manifests as they are collected, and sorts the changed files by code points where the source compares UTF-16 units. A field of a manifest stands for its JSON value.
- `collectChangeSet`, `collectGitHubChangeSet` and `collectPackageChange`: calls of git and reads of files and the environment.
- `discoverRustIncludes`, `developmentCommands` and `ipcCommandInventory`: lists and tables. Of `generatedBlockImpacts` only whether a file has an impact is modelled.
- ShutdownWriters.LastOwnerStays: takes each registration to pass a function of its own; the source compares functions, so registering one function twice under a name makes its two disposers interchangeable.
- `pool_for`, `server_for`, `origin_base_for`, `slot_count`, `has_slot` and `all_slots`: reads of the registry, except that `all_slots` hands out raw handles as `get_existing` does.
- The session itself: teardown, `TransferPool` beyond its identity and its cancellation, and the values behind the async lock beyond whether there is one.
- ColumnDragProperties.JumpIsSwaps: takes every column to be shown with a positive width, as does the travel needed for undoing; hidden columns are covered by the other lemmas.
- The DOM: scroll offsets, the drag threshold, restoring the order on escape, and the animation.
- `Shortcuts.DisplayCode`: keys that every JavaScript object inherits, such as `constructor`, are not in the label table here.
- ShutdownWriters.Writers.FlushShutdownState: of an owner that is not a settings persister only the outcome of its flush is known.
- UseTreeExactness.ExpansionIsExact: takes the white space of a declaration to be white space of JavaScript; U+0085, U+200E and U+200F are white space of Rust alone.
- Sources.SourceIsRead: says nothing of a source with a literal that is not readable, behind which anything may be taken for literal or code.
- Items.RangeIsItem: items are told apart by their brackets and by what ends them, not by keyword; whether a header is one of the language is not modelled.
- The order in which a JavaScript map hands out shutdown writers, and a writer that throws at once: both count as a rejected outcome or make no difference to the answer.
