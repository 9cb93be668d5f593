# autotag-techs, modelled in Dafny

autotag-techs is a GitHub Action. It finds out which technologies a
repository uses and records them as repository topics. The model covers
its core:

- **Dependency parser.** It reads up to ten kinds of manifest
  (`package.json`, `requirements.txt`, `go.mod`, `Cargo.toml`,
  `composer.json`, `Gemfile`, `pom.xml`, `build.gradle`, `pyproject.toml`,
  `Pipfile`) in the repository root and five usual sub-folders. It then
  reads the `package.json` of every sub-directory. It gathers the names
  without duplicates.
- **Tech detector.** It adds the languages of the repository's files. A
  depth-limited walk collects the files, and their extensions are looked up
  in a table. Each candidate goes to a lookup service, and the names it
  recognises become topics.
- **Topics manager.** It merges the topics with the current ones and
  writes at most twenty.
- **Ledger.** `TechsStorage` keeps the ledger `.github/techs.json`. It
  also turns names into badges.
- **Name table.** A table maps package names to official technology names.
- **Change detector.** It skips a run when neither the dependency names
  nor `techs.json` changed since the last run.
- **Template classes.** The small `Project` and `ProjectService` classes.

The file system, the network and the clock are replaced by values:

| source routine | modelled as |
|---|---|
| reading a file | `read: string -> Option<string>` |
| `JSON.parse` | a typed document (`Json`, `TechsFile`, `LastRun`) |
| a directory listing | `Option<seq<Entry>>`, or a `Node` tree for the recursive walk |
| the lookup service | `search: string -> Result<nat>` (the number of results, or an error) |
| the GitHub calls | the topics read (`Result<seq<string>>`) and whether the write throws |
| `new Date()` | a `Clock` |
| a modification time | a number of milliseconds |

Each parser that loops in the source is a `method`. Its loop is proved
equal to a specification function, and the function's meaning is proved
as lemmas. The same holds for `getAllTechs`, `getAllFiles`,
`detectLanguages`, the inclusion loop of `detectAndTag`, `simpleHash` and
`parseDependencies`.

Classes:

- `TechsStorage`, `Project` and `ProjectService` are classes whose methods
  update their fields.
- `TechDetector`, `DependencyParser`, `GitHubTopicsManager` and
  `ChangeDetector` hold only read-only collaborators. They become modules of
  functions and methods that take those collaborators as parameters.

One behaviour of the source that the model keeps: the `go.mod` pattern
`^\s*([a-zA-Z0-9.\-/]+)\s+v` also matches the directive
`module vitess.io/vitess`. That line therefore yields the dependency name
`module`. This happens whenever the module path starts with `v`. The lemma
`DependencyParser.ModuleDirective` states exactly when it happens.

Files:

| file | contents |
|---|---|
| `wrappers.dfy` | `Option` and `Result` |
| `seqs.dfy` | insertion-ordered de-duplication (a JavaScript `Set`) and map-then-filter (`Collect`) |
| `text.dfy` | the JavaScript string routines used: ASCII `toLowerCase`, `trim`, `split`, `startsWith`, `padStart`, `String(n)` |
| `tags.dfy` | the regular-expression clean-up shared by badges and topics |
| `badge.dfy` | `normalizeToBadge` |
| `ledger.dfy` | the rest of `TechsStorage` |
| `mappings.dfy` | `tech-name-mappings.ts` |
| `dependency_parser.dfy` | `dependency-parser.ts` |
| `github_topics.dfy` | `github-topics-manager.ts` |
| `tech_detector.dfy` | `tech-detector.ts` |
| `change_detector.dfy` | `change-detector.ts` |
| `domain.dfy` | `domain.ts` |
| `app.dfy` | `app.ts` |

## Model

| member | source | states |
|---|---|---|
| Tags.Hyphenate | src/tech-detector/techs-storage.ts:148-150 | same length; each character of the class becomes `-` and every other character is kept |
| Tags.KeepTagChars | src/tech-detector/techs-storage.ts:152 | only `[a-z0-9-]` remains, no longer than the input, every kept character comes from the input, and a string already made of those characters is unchanged |
| Tags.CollapseHyphens | src/tech-detector/techs-storage.ts:154 | no `--` remains, empty iff the input is empty, the first character is kept, the alphabet is kept, and a string without `--` is unchanged |
| Tags.TrimHyphens | src/tech-detector/techs-storage.ts:156 | on a string without `--` the result has no hyphen at either end; a string without edge hyphens is unchanged |
| Tags.CleanShape | src/tech-detector/techs-storage.ts:152-156 | the last three stages always produce a tag-shaped string (`[a-z0-9-]`, no `--`, no edge `-`) |
| Tags.CleanFixed | src/tech-detector/techs-storage.ts:152-156 | the last three stages leave a tag-shaped string unchanged |
| Badge.NormalizeToBadge | src/tech-detector/techs-storage.ts:129-164 | every badge is non-empty and tag-shaped |
| Badge.Canonical | src/tech-detector/techs-storage.ts:144-163 | the stages after scope unwrapping give a non-empty tag-shaped string, `unknown` when nothing is left |
| Badge.BadgeFixed | src/tech-detector/techs-storage.ts:129-164 | a non-empty tag-shaped name is its own badge |
| Badge.NormalizeToBadgeIdempotent | src/tech-detector/techs-storage.ts:129-164 | normalising a badge again changes nothing |
| Badge.UnwrapScoped | src/tech-detector/techs-storage.ts:133-142 | `@types/<rest>` unwraps to the first `/`-piece of `<rest>`; any other scope unwraps to the pieces of `<rest>` joined with `-` |
| Badge.TypesScope | src/tech-detector/techs-storage.ts:136-137 | `@types/<name>` has the badge of `<name>` |
| Badge.OtherScope | src/tech-detector/techs-storage.ts:138-141 | `@<scope>/<name>` has the badge of `<name>` for any scope other than `types` |
| Badge.NestedScope | src/tech-detector/techs-storage.ts:138-141 | `@<scope>/<a>/<b>` has the badge of `<a>-<b>` |
| Badge.TypesReactExample | tests/unit/tech-detector/techs-storage.test.ts:308 | `@types/react` gives `react` |
| Badge.BabelCoreExample | tests/unit/tech-detector/techs-storage.test.ts:309 | `@babel/core` gives `core` |
| Badge.NestedScopeExample | src/tech-detector/techs-storage.ts:138-141 | `@scope/a/b` gives `a-b` |
| Badge.NextJsExample | tests/unit/tech-detector/techs-storage.test.ts:303 | `Next.js` gives `next-js` |
| Badge.CPlusPlusExample | tests/unit/tech-detector/techs-storage.test.ts:325 | `C++` gives `c` |
| Badge.DotsExample | tests/unit/tech-detector/techs-storage.test.ts:334 | `...` gives `unknown` |
| Ledger.LoadTechs | src/tech-detector/techs-storage.ts:21-37 | a missing or unparsable file gives exactly `{user: []}`; otherwise the keys are the file's keys plus `user`, every entry of the file is kept, and an absent `user` becomes `[]` |
| Ledger.LoadSaved | src/tech-detector/techs-storage.ts:21-53 | a ledger with a `user` entry that is saved loads back unchanged |
| Ledger.AllTechs | src/tech-detector/techs-storage.ts:95-113 | a name is in the set iff it is in a non-`user` entry, or in `user` when `user` is not excluded |
| Ledger.ExcludeUserSubset | src/tech-detector/techs-storage.ts:95-113 | excluding `user` gives a subset; the names it drops are `user` names |
| Ledger.AddEach | src/tech-detector/techs-storage.ts:103 | the loop of `Set.add` calls yields the old set plus the list's elements |
| Ledger.GetAllTechs | src/tech-detector/techs-storage.ts:95-113 | the loop over the entries computes exactly `AllTechs` |
| Ledger.GetUserTechs | src/tech-detector/techs-storage.ts:115-117 | exactly the `user` list of the ledger; every one of its names is recorded, and one found under no stamp is absent when `user` is excluded |
| Ledger.HasTech | src/tech-detector/techs-storage.ts:91-93 | true iff the loaded ledger records the name, `user` included |
| Ledger.HasTechEmpty | src/tech-detector/techs-storage.ts:91-93 | a missing or unparsable file records nothing |
| Ledger.Timestamp | src/tech-detector/techs-storage.ts:119-127 | `DD-MM-YYYY-HH`: padded day, padded 1-based month, the year in decimal and the padded hour, separated by `-` |
| Ledger.TimestampDigits | src/tech-detector/techs-storage.ts:121-124 | day, month and hour are two digits each |
| Ledger.TimestampInjective | src/tech-detector/techs-storage.ts:119-127 | different clock readings give different stamps, and no stamp equals `user` |
| Ledger.Unrecorded | src/tech-detector/techs-storage.ts:61 | a name is kept iff it is given and not already known; the result is empty iff every given name is known |
| Ledger.AddNewEntries | src/tech-detector/techs-storage.ts:55-73 | exactly the unknown names are written under the stamp, `user` names counting as known; every other key is unchanged; with no unknown names the ledger is unchanged |
| Ledger.AddNewRecordsAll | src/tech-detector/techs-storage.ts:55-73 | when the stamp is new, the recorded names afterwards are the old ones plus the given ones |
| Ledger.AddNewTwice | tests/unit/tech-detector/techs-storage.test.ts:125-142 | a repeated call in the same hour adds nothing, provided the hour's stamp was absent before the first call |
| Ledger.AddNewReplacesStamp | src/tech-detector/techs-storage.ts:64 | the stamp's entry is replaced, not merged: a name recorded only there is lost |
| Ledger.CompactedKeeps | src/tech-detector/techs-storage.ts:75-89 | after compaction there are exactly two keys, `user` is unchanged, and the recorded names, with and without `user`, are those recorded before |
| Ledger.ListOf | src/tech-detector/techs-storage.ts:84 | `[...set]` lists each member of the set exactly once |
| Ledger.TechsStorage.constructor | src/tech-detector/techs-storage.ts:14-19 | the storage starts with the given file |
| Ledger.TechsStorage.Has | src/tech-detector/techs-storage.ts:91-93 | true iff the stored file records the name |
| Ledger.TechsStorage.AddNewTechs | src/tech-detector/techs-storage.ts:55-73 | with no unknown names nothing is written; otherwise the file becomes the ledger with the unknown names under the current stamp, unless the write fails, in which case the file is unchanged and the failure is reported |
| Ledger.TechsStorage.UpdateTimestamps | src/tech-detector/techs-storage.ts:75-89 | the written list holds each non-`user` name once; the file becomes `user` plus that list under the current stamp, or is unchanged when the write fails |
| TechNameMappings.GetMappedTechName | src/tech-detector/tech-name-mappings.ts:97-99 | the result is the input or one of the table's values |
| TechNameMappings.NotAKey | src/tech-detector/tech-name-mappings.ts:97-99 | a name whose lower-cased form has a character outside `[a-z0-9@/-]` comes back unchanged |
| TechNameMappings.KeysLowercase | src/tech-detector/tech-name-mappings.ts:7-92 | every key is lower-case |
| TechNameMappings.MappedAnyCase | src/tech-detector/tech-name-mappings.ts:97-99 | a name whose lower-cased form is a key maps to that key's value, and names differing only in case agree |
| TechNameMappings.UnmappedUnchanged | src/tech-detector/tech-name-mappings.ts:98 | any other name comes back unchanged, casing included |
| TechNameMappings.GetMappedTechNameIdempotent | src/tech-detector/tech-name-mappings.ts:7-99 | mapping a mapped name again changes nothing |
| TechNameMappings.TableValuesFixed | src/tech-detector/tech-name-mappings.ts:7-92 | every value of the table maps to itself |
| TechNameMappings.KeyLookup | src/tech-detector/tech-name-mappings.ts:98 | every key finds its own value |
| TechNameMappings.RadixKeys | src/tech-detector/tech-name-mappings.ts:11-22 | every `@radix-ui/` key maps to `Radix UI` |
| TechNameMappings.UnmappedKeys | src/tech-detector/tech-name-mappings.ts:7-99 | `react`, `vite`, `vitest`, `playwright`, `typescript` and `eslint` are not keys, so the lookup passes them through |
| TechNameMappings.ReactAliases | src/tech-detector/tech-name-mappings.ts:25-62 | `react-dom`, `@types/react` and `@types/react-dom` map to `React` |
| DependencyParser.NonEmpty | src/dependency-parser/dependency-parser.ts:152 | `filter(Boolean)` keeps exactly the non-empty names |
| DependencyParser.RequirementName | src/dependency-parser/dependency-parser.ts:130-135 | a line yields a name iff its trimmed text is non-empty, not a `#` comment and does not start with an operator; the name is trimmed, non-empty and free of `= < > ~ !` |
| DependencyParser.ParseRequirementsTxt | src/dependency-parser/dependency-parser.ts:129-136 | at most one name per line, each a well-formed requirement name |
| DependencyParser.RequirementDeclared | src/dependency-parser/dependency-parser.ts:130-135 | a line whose trimmed text is a name followed by nothing or by an operator (`django==3.2.0`, `flask>=2.0.0`, `requests`) yields exactly that name |
| DependencyParser.RequirementsMeans | src/dependency-parser/dependency-parser.ts:129-136 | a name is listed iff some line of the file yields it |
| DependencyParser.GemName | src/dependency-parser/dependency-parser.ts:196-201 | a line yields a name only if its trimmed text starts with `gem`, white space and a quote; the name is non-empty and has no quote |
| DependencyParser.GemDeclared | src/dependency-parser/dependency-parser.ts:197-200 | `gem <spaces>'<name>'...` yields exactly `<name>` |
| DependencyParser.ParseGemfile | src/dependency-parser/dependency-parser.ts:193-203 | at most one name per line, each non-empty and quote-free |
| DependencyParser.ModulePathOf | src/dependency-parser/dependency-parser.ts:143 | a matched path is non-empty and made of `[a-zA-Z0-9./-]` |
| DependencyParser.LastSegment | src/dependency-parser/dependency-parser.ts:145-147 | the last segment contains no `/` |
| DependencyParser.GoModDeps | src/dependency-parser/dependency-parser.ts:138-153 | every dependency is non-empty and contains no `/` |
| DependencyParser.ParseGoMod | src/dependency-parser/dependency-parser.ts:138-153 | the loop computes `GoModDeps` |
| DependencyParser.WordThenArgument | src/dependency-parser/dependency-parser.ts:143 | `<path> <arg>` matches iff the argument starts with `v`, and then yields the path |
| DependencyParser.LastSegmentOf | src/dependency-parser/dependency-parser.ts:145-147 | the last segment of `<prefix>/<name>` is `<name>` |
| DependencyParser.RequireEntry | src/dependency-parser/dependency-parser.ts:142-148 | a `require` entry `<prefix>/<name> v...` yields `<name>` |
| DependencyParser.GoDirective | src/dependency-parser/dependency-parser.ts:143 | `go 1.21` yields nothing |
| DependencyParser.ModuleDirective | src/dependency-parser/dependency-parser.ts:143-148 | `module <path>` yields `module` iff the path starts with `v`, and nothing otherwise |
| DependencyParser.TableKey | src/dependency-parser/dependency-parser.ts:172 | a key is non-empty and made of `[a-zA-Z0-9_-]`; a line starting with `[` has none |
| DependencyParser.TableKeyOf | src/dependency-parser/dependency-parser.ts:172 | `key <spaces>= value` yields exactly `key` |
| DependencyParser.SectionKeys | src/dependency-parser/dependency-parser.ts:155-180 | every emitted key is a non-empty key name and not the excluded one |
| DependencyParser.ParseSections | src/dependency-parser/dependency-parser.ts:155-180 | the flag-toggling loop computes `SectionKeys` |
| DependencyParser.ParseCargoToml | src/dependency-parser/dependency-parser.ts:155-180 | the keys under `[dependencies]` or `[dev-dependencies]` |
| DependencyParser.ParsePyprojectToml | src/dependency-parser/dependency-parser.ts:237-259 | the keys under `[tool.poetry.dependencies]`, never `python` |
| DependencyParser.ParsePipfile | src/dependency-parser/dependency-parser.ts:261-283 | the keys under `[packages]` or `[dev-packages]` |
| DependencyParser.InSectionMeans | src/dependency-parser/dependency-parser.ts:160-170 | the flag is set iff some header line is followed only by lines that do not start with `[`, or that are headers |
| DependencyParser.SectionKeysMeans | src/dependency-parser/dependency-parser.ts:160-177 | a key is emitted iff some non-header line inside an open section declares it and it is not excluded |
| DependencyParser.ArtifactAt | src/dependency-parser/dependency-parser.ts:207-209 | a match at a position is `<artifactId>id</artifactId>` with a non-empty id free of `<`, and the scan resumes right after it |
| DependencyParser.ArtifactIds | src/dependency-parser/dependency-parser.ts:207-215 | every id is non-empty and free of `<` |
| DependencyParser.NoOpenInside | src/dependency-parser/dependency-parser.ts:207-209 | no `<artifactId>` starts strictly inside a match, so the global scan never skips an element |
| DependencyParser.ArtifactIdsAreElements | src/dependency-parser/dependency-parser.ts:207-215 | the scan that resumes after each match lists exactly the element found at each position of the document, position by position |
| DependencyParser.ArtifactIdsComplete | src/dependency-parser/dependency-parser.ts:207-215 | every `<artifactId>` element whose text is non-empty and free of `<` has its text emitted |
| DependencyParser.ArtifactIdsInOrder | src/dependency-parser/dependency-parser.ts:207-215 | an earlier element's text is emitted before a later one's (document order) |
| DependencyParser.ArtifactAtIs | src/dependency-parser/dependency-parser.ts:207-209 | an element with a non-empty, `<`-free text is the match at its position, resuming after its closing tag |
| DependencyParser.ArtifactIdsOccur | src/dependency-parser/dependency-parser.ts:207-215 | every id occurs in the text inside `<artifactId>` tags |
| DependencyParser.SingleArtifact | src/dependency-parser/dependency-parser.ts:205-218 | a lone element yields exactly its id |
| DependencyParser.ParsePomXml | src/dependency-parser/dependency-parser.ts:205-218 | the match loop computes `ArtifactIds`: every element's text, in document order (by the lemmas above) |
| DependencyParser.ConfigurationEnd | src/dependency-parser/dependency-parser.ts:226 | a configuration keyword matched at a position ends after it |
| DependencyParser.CoordinateAt | src/dependency-parser/dependency-parser.ts:226 | a captured name is non-empty and free of `:` and quotes |
| DependencyParser.CoordinateSearch | src/dependency-parser/dependency-parser.ts:225-229 | the leftmost match's name is non-empty and free of `:` and quotes |
| DependencyParser.GradleDeps | src/dependency-parser/dependency-parser.ts:220-235 | at most one name per line, each non-empty and free of `:` and quotes |
| DependencyParser.GradleDepsMeans | src/dependency-parser/dependency-parser.ts:223-232 | a name is emitted iff some line of the file yields it |
| DependencyParser.CoordinateSearchIsLeftmost | src/dependency-parser/dependency-parser.ts:225-229 | the unanchored search is the leftmost position where the anchored expression matches |
| DependencyParser.GradleDependencyMeans | src/dependency-parser/dependency-parser.ts:225-231 | a line yields `n` iff the expression matches at some position capturing `n` and nowhere before it |
| DependencyParser.GradleNoDependency | src/dependency-parser/dependency-parser.ts:225-231 | a line yields nothing iff the expression matches at no position of it |
| DependencyParser.ParseBuildGradle | src/dependency-parser/dependency-parser.ts:220-235 | the loop computes `GradleDeps`, whose lines are characterised by the lemmas below |
| DependencyParser.GradleDeclared | src/dependency-parser/dependency-parser.ts:225-231 | `<kw> '<group>:<name>...`, for each of `implementation`, `api`, `compile` and `testImplementation`, after any stretch where the expression does not match, yields `<name>` |
| DependencyParser.IndentedDeclaration | src/dependency-parser/dependency-parser.ts:225-231 | the indented form `    <kw> '<group>:<name>...` yields `<name>` |
| DependencyParser.DeclarationAt | src/dependency-parser/dependency-parser.ts:226 | a declaration `<kw><gap><quote><group>:<name>` at a position, not followed by another coordinate character, is a match there capturing `<name>` |
| DependencyParser.ConfigurationEndIs | src/dependency-parser/dependency-parser.ts:226 | whichever of the four keywords occurs at a position is the one the alternation takes |
| DependencyParser.NoConfigurationAtSpace | src/dependency-parser/dependency-parser.ts:226 | the expression never matches at a white-space character |
| DependencyParser.CoordinateAfterIs | src/dependency-parser/dependency-parser.ts:226 | after the keyword, spaces, a quote, a group, `:` and a name, the name is captured |
| DependencyParser.JsonKeys | src/dependency-parser/dependency-parser.ts:118-127 | fails iff the document does not parse; otherwise the keys of the first object in order, then those of the second: `dependencies` then `devDependencies` for `parsePackageJson`, `require` then `require-dev` for `parseComposerJson` (ts:182-191) |
| DependencyParser.ParseManifest | src/dependency-parser/dependency-parser.ts:70-74 | each manifest is dispatched to its own rule |
| DependencyParser.Gather | src/dependency-parser/dependency-parser.ts:69-115 | the gathered names have no duplicates |
| DependencyParser.GatherMembers | src/dependency-parser/dependency-parser.ts:53-116 | a name is gathered iff some probed file exists, parses and yields it |
| DependencyParser.GatherSkipsFailed | src/dependency-parser/dependency-parser.ts:72-86 | a file that is missing or fails to parse can be dropped from the probe list without changing the result |
| DependencyParser.GatherAppend | src/dependency-parser/dependency-parser.ts:78 | one more probe adds its names in order, each once |
| DependencyParser.AddInOrder | src/dependency-parser/dependency-parser.ts:78 | the `Set.add` loop appends the new names in order |
| DependencyParser.TryProbe | src/dependency-parser/dependency-parser.ts:71-86 | a probe adds its names, or nothing when reading or parsing throws |
| DependencyParser.ScanDirs | src/dependency-parser/dependency-parser.ts:69-88 | the nested loops probe every manifest in every search folder, in order |
| DependencyParser.ScanDir | src/dependency-parser/dependency-parser.ts:70-87 | the inner loop probes every manifest of one folder |
| DependencyParser.ScanSubdirs | src/dependency-parser/dependency-parser.ts:91-113 | the `package.json` of every sub-directory is probed, in listing order |
| DependencyParser.ParseDependencies | src/dependency-parser/dependency-parser.ts:53-116 | the result is `Gather` over the root probes and then the sub-directory probes, and has no duplicates |
| GitHubTopics.MergeTopics | src/tech-detector/github-topics-manager.ts:58-61 | no duplicates; a topic is present iff it is current or new; the de-duplicated current topics come first |
| GitHubTopics.Capped | src/tech-detector/github-topics-manager.ts:21-26 | at most 20 topics, a prefix of the merge, exactly 20 when the merge has at least 20, the whole merge otherwise |
| GitHubTopics.WrittenTopics | src/tech-detector/github-topics-manager.ts:14-26 | the written list has at most 20 topics, no duplicates, each current or new, and keeps the current ones first |
| GitHubTopics.FifteenPlusTen | tests/unit/tech-detector/github-topics-manager.test.ts:95-116 | 15 current topics and 10 new distinct ones give the 15 followed by the first 5 new |
| GitHubTopics.FullRepositoryGainsNothing | src/tech-detector/github-topics-manager.ts:18-26 | with 20 distinct current topics no new topic is written |
| GitHubTopics.UpdateTopics | src/tech-detector/github-topics-manager.ts:14-39 | a failing read rejects and writes nothing; otherwise the capped merge is written and the call completes, even when the write fails |
| TechDetector.Cleaned | src/tech-detector/tech-detector.ts:196-201 | the replace chain always gives a tag-shaped string |
| TechDetector.NormalizeTopic | src/tech-detector/tech-detector.ts:195-203 | at most 50 characters of `[a-z0-9-]`, no `--`, no leading `-` |
| TechDetector.TagShapedTopic | src/tech-detector/tech-detector.ts:195-203 | a tag-shaped name is only cut to its first 50 characters |
| TechDetector.CutAfterHyphen | src/tech-detector/tech-detector.ts:202 | a topic can end in `-` when the cut falls after a hyphen |
| TechDetector.TopicRenormalized | src/tech-detector/tech-detector.ts:195-203 | normalising a topic again only drops a trailing `-`, so three normalisations equal two |
| TechDetector.EmptyTopic | src/tech-detector/tech-detector.ts:195-203 | a name made only of `.` and `@` gives the empty topic |
| TechDetector.Walk | src/tech-detector/tech-detector.ts:130-167 | every listed file lies under the directory, passes through no hidden, `node_modules`, `dist` or `build` entry, and lies at most 3 directories below the root |
| TechDetector.WalkEntries | src/tech-detector/tech-detector.ts:143-161 | the same for the files found through one listing |
| TechDetector.WalkEntriesMembers | src/tech-detector/tech-detector.ts:143-161 | a file is listed iff it is a non-skipped file entry, or is listed inside a non-skipped sub-directory |
| TechDetector.GetAllFiles | src/tech-detector/tech-detector.ts:130-167 | the recursion appends exactly the walk's files to the shared list |
| TechDetector.LastDot | src/tech-detector/tech-detector.ts:115 | the position of the last `.`, or none when there is no `.` |
| TechDetector.ExtName | src/tech-detector/tech-detector.ts:115 | the extension is empty, or a suffix of the name that starts with its only `.` and is shorter than the name |
| TechDetector.FileLanguage | src/tech-detector/tech-detector.ts:115-119 | a detected language is a value of the table |
| TechDetector.LanguagesOfMeans | src/tech-detector/tech-detector.ts:108-128 | a language is detected iff some file has it; none twice, and each is a value of the table |
| TechDetector.TableKeysShaped | src/tech-detector/tech-detector.ts:17-47 | every key is a `.` followed by lower-case letters |
| TechDetector.KnownExtension | src/tech-detector/tech-detector.ts:17-47 | every table entry is reached: `<stem><ext>` has the table's language for `ext` |
| TechDetector.ExtensionCase | src/tech-detector/tech-detector.ts:115-116 | the extension is lower-cased first, so `App.TSX` is TypeScript |
| TechDetector.DetectLanguages | src/tech-detector/tech-detector.ts:108-128 | the loop yields `LanguagesOf` of the walk's files |
| TechDetector.Candidates | src/tech-detector/tech-detector.ts:68 | no duplicates; a candidate is a dependency or a language |
| TechDetector.DependenciesFirst | src/tech-detector/tech-detector.ts:68 | duplicate-free dependencies open the candidate list unchanged |
| TechDetector.TopicsFound | src/tech-detector/tech-detector.ts:95 | the topics have no duplicates |
| TechDetector.TopicsFoundMeans | src/tech-detector/tech-detector.ts:72-95 | a topic is found iff it is the topic of a tagged candidate |
| TechDetector.IncludeFullTagsAll | src/tech-detector/tech-detector.ts:72-93 | with `includeFull` every candidate is tagged, whatever the lookup answers |
| TechDetector.StrictTagging | src/tech-detector/tech-detector.ts:74-92 | without `includeFull` a topic is found iff a candidate with that topic got a non-empty answer; errors never tag |
| TechDetector.TopicsShaped | src/tech-detector/tech-detector.ts:76-90 | every found topic has at most 50 characters of `[a-z0-9-]` and no `--` |
| TechDetector.MatchCandidates | src/tech-detector/tech-detector.ts:70-93 | the loop pushes exactly the topics of the tagged candidates, in candidate order |
| TechDetector.DetectAndTag | src/tech-detector/tech-detector.ts:55-106 | no topics means no update and success; otherwise the capped merge with the current topics is written, and the call fails iff reading the current topics fails |
| ChangeDetector.ToInt32 | src/utils/change-detector.ts:113 | the 32-bit value congruent to the input modulo 2^32 |
| ChangeDetector.StepIsTimes31 | src/utils/change-detector.ts:112-113 | the step as written, shift and subtract, is `h := ToInt32(31*h + c)` |
| ChangeDetector.HashOf | src/utils/change-detector.ts:108-116 | the running hash always stays within signed 32-bit range |
| ChangeDetector.HashIsPolynomial | src/utils/change-detector.ts:108-116 | the hash is the polynomial `sum c_i * 31^(n-1-i)` taken to 32 bits |
| ChangeDetector.HexInjective | src/utils/change-detector.ts:115 | different hashes print differently in hexadecimal |
| ChangeDetector.Hex | src/utils/change-detector.ts:115 | the printed hash starts with `-` iff it is negative |
| ChangeDetector.EmptyHash | src/utils/change-detector.ts:108-116 | the empty string hashes to `0` |
| ChangeDetector.SimpleHash | src/utils/change-detector.ts:108-116 | the loop prints `HashOf` of its input |
| ChangeDetector.Insert | src/utils/change-detector.ts:92 | inserting into a sorted list keeps it sorted and adds exactly the one name |
| ChangeDetector.Sort | src/utils/change-detector.ts:92 | the result is sorted and a permutation of the input |
| ChangeDetector.SortedUnique | src/utils/change-detector.ts:92 | two sorted lists with the same names are equal |
| ChangeDetector.HashIgnoresOrder | src/utils/change-detector.ts:88-96 | the dependency hash does not depend on the order of the names |
| ChangeDetector.CurrentDependenciesHash | src/utils/change-detector.ts:88-96 | sorting, joining with `,` and hashing gives `DependenciesHash` |
| ChangeDetector.Mtime | src/utils/change-detector.ts:98-105 | a missing file counts as time 0 |
| ChangeDetector.ShouldRun | src/utils/change-detector.ts:19-54 | forced runs and a missing last-run file always run; the run is skipped iff the stored hash equals the current one and `techs.json` is not newer than the last run |
| ChangeDetector.SaveLastRun | src/utils/change-detector.ts:56-74 | the saved record holds a hash and the save time |
| ChangeDetector.SavedRunIsSkipped | src/utils/change-detector.ts:19-74 | right after a save, with the same names in any order and an untouched `techs.json`, the next run is skipped |
| ChangeDetector.ChangedHashRuns | src/utils/change-detector.ts:29-46 | a different dependency hash always runs |
| Domain.Project.constructor | src/domain.ts:5-8 | a new project has the given name and no tasks or goals |
| Domain.Project.AddTask | src/domain.ts:10-12 | the task is appended and the goals are unchanged |
| Domain.Project.AddGoal | src/domain.ts:14-16 | the goal is appended and the tasks are unchanged |
| Domain.Project.GetTasks | src/domain.ts:18-20 | returns a list equal to the current tasks |
| Domain.Project.GetGoals | src/domain.ts:22-24 | returns a list equal to the current goals |
| Domain.Project.ToJson | src/domain.ts:26-32 | reports the current name, tasks and goals |
| App.ProjectService.constructor | src/app.ts:6-8 | the service owns a new project with the given name and no tasks or goals |
| App.ProjectService.AddTasks | src/app.ts:10-12 | every task is appended in order; goals are unchanged, and the project instance is a constant field |
| App.ProjectService.AddGoals | src/app.ts:14-16 | every goal is appended in order; tasks are unchanged, and the project instance is a constant field |
| App.ProjectService.GetProject | src/app.ts:18-20 | the same project instance every time |

## Left out

- File and directory I/O, `JSON.parse`/`JSON.stringify`, the network, `Date` and the logger are replaced by values and parameters, as described above. Log messages are not modelled.
- `searchTechnology`: the HTTP request, the content-type check and the JSON decoding are one oracle from a name to the number of results or an error.
- JSON documents that parse to a value other than an object (a number, a string, `null`, an array) are not distinguished from unparsable ones.
- Non-ASCII case mapping: `toLowerCase` is modelled on ASCII letters only, so the Kelvin sign, for example, is not lower-cased to `k`.
- Strings are sequences of Unicode scalar values, not UTF-16 code units. `simpleHash` reads its input through `codePointAt(i)` per code unit. The model hashes one number per character, which matches only when every character is in the Basic Multilingual Plane. The comparison that `sort()` uses is likewise by character, not by code unit.
- Ledger.LoadTechs, Ledger.AllTechs: ledger entries whose value is not an array of strings are not represented, because the ledger is typed as a map from keys to string lists. So the model does not capture that `getAllTechs` skips a non-array entry, that `addNewTechs` writes such an entry back unchanged while `updateTimestamps` drops it, that a string `user` entry is added character by character, or that a `null` `user` is replaced by `[]`.
- The order in which a JavaScript object lists its keys is not modelled. The ledger is a map, and `[...set]` in `updateTimestamps` is any duplicate-free listing of the set.
- Object-key lookups that hit the prototype chain are not modelled: both tables are plain finite maps.
- `saveTechs` throwing is modelled as a `failed` result that leaves the file unchanged. A rejected `detectAndTag`, `updateTopics` or `addNewTechs` is modelled the same way.
- Entries of a directory listing that are neither files nor directories (symbolic links, sockets) count as files, as `isDirectory()` is false for them.
- `path.join` is modelled as appending a component. Normalising `..` and repeated separators is not modelled.
- Domain.Project.ToJson: returns the lists as values; that the source's `toJSON` hands out the live arrays, which a caller could mutate, is not modelled.
- src/action.ts, src/index.ts, src/infra.ts and the input/output wrappers are orchestration and user interface and are not part of this model.
