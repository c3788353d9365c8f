# A verified model of the rds-ui scaffolding CLI

This project models the `packages/cli` scaffolding CLI of the ADMS RDS UI repository in
Dafny, together with the keyboard handler of the Storybook radio groups.

The `add` command copies registry components into a consumer project. It:

- partitions the requested keys into `lib/...` keys and component keys;
- validates the component keys;
- copies each component's files under the configured components directory, with a
  conflict policy for existing files;
- rewrites their internal imports to the consumer's aliases (`transformImports`);
- adds the registry dependencies through nested calls with `yes` forced;
- installs the npm dependencies of the components it processed itself.

The `init` command:

- edits `vite.config.ts`;
- edits `tsconfig.json`, including the layout with project references;
- copies the shared utils and styles;
- saves `rds-ui.json`;
- installs the base dependencies, which always include `reka-ui`.

The model also covers the `rds-ui.json` store, the package-manager helpers (lockfile
probe, install command line, install outcome) and `handleKeyDown` of `useRadioKeyboard`.

How the model is built:

- **Files.** The project's files are a `map<string, string>` from path to text.
- **Prompts.** A confirm prompt takes the next answer from a scripted `seq<bool>`. Once
  the script is exhausted the prompt counts as cancelled, which the CLI reads as "no".
- **Multi-select and text prompts.** Their answers are fixed parameters of the run.
- **Network.** The registry manifest and the fetched registry files are parameters of
  the run. The manifest is `None` when it cannot be fetched. A file missing from the map
  cannot be fetched.
- **Installs.** Running the install command is an oracle: the set of command lines that
  fail.
- **Exits.** `process.exit(code)` and uncaught errors are outcomes (`Workspace.Outcome`).
  They end the whole process, also from inside a nested `add`.
- **Two levels per command.** Each command has a specification function that maps the
  state before the call to its outcome and the state after it (`AddResult`,
  `InitResult`). Each also has a method written step by step over a `Workspace.Project`
  object, whose fields hold the files, the remaining answers and the log of reported
  events. It is proved to agree with that function. The properties of the command are
  then lemmas about the specification function.
- **JSON edits.** `init` edits tsconfig files. These are held parsed, in a store of
  their own (path to `TsConfig`).

Modules:

- **wrappers.dfy:** `Option` and `Result`.
- **text.dfy:** the `String.prototype` operations used: `startsWith`, `endsWith`,
  `includes`, `replace` with a string and with a global regular expression, `join`,
  `trim`, and `path.join` / `path.basename`.
- **lists.dfy:** `[...new Set(xs)]` and `filter`.
- **registry.dfy:** the registry manifest and the key partition.
- **config.dfy:** `RdsConfig` and the `rds-ui.json` store.
- **packages.dfy:** the package-manager helpers.
- **transformer.dfy:** `transformImports`.
- **workspace.dfy:** the world of a command and the `Project` class.
- **add.dfy and add_properties.dfy:** `add` and what it guarantees.
- **tsconfig.dfy:** `mergePaths` and `updateTsConfig`.
- **vite_config.dfy:** `updateViteConfig`.
- **init_command.dfy:** `init`.
- **radio_keyboard.dfy:** the keyboard handler.

## Model

| member | source | states |
|---|---|---|
| Registry.LibKeys | packages/cli/src/commands/add.ts:54 | every key kept starts with `lib/` and was requested; every requested `lib/` key is kept |
| Registry.ComponentKeys | packages/cli/src/commands/add.ts:55 | every key kept does not start with `lib/` and was requested; every such requested key is kept |
| Registry.FiltersAppend | packages/cli/src/commands/add.ts:54-55 | both key filters distribute over concatenation, so each keeps the request's order |
| Registry.FiltersSingleton | packages/cli/src/commands/add.ts:54-55 | a single key goes to exactly one of the two filters, by its `lib/` prefix |
| Registry.KeysPartition | packages/cli/src/commands/add.ts:54-55 | the two filters split the request: their lengths add up to the number of keys |
| Lists.Dedupe | packages/cli/src/commands/add.ts:169 | `[...new Set(xs)]` holds exactly the elements of `xs`, with no duplicates |
| Lists.DedupeMembers | packages/cli/src/commands/add.ts:169 | an element is in the dedupe iff it is in the list |
| Lists.DedupeOfNoDup | packages/cli/src/commands/add.ts:140 | a list without duplicates is its own dedupe |
| Lists.DedupeIdempotent | packages/cli/src/commands/add.ts:140 | deduping twice is deduping once |
| Lists.DedupePrefix | packages/cli/src/commands/init.ts:138-139 | first-occurrence order: the dedupe of a prefix is a prefix of the dedupe |
| Lists.Without | packages/cli/src/commands/add.ts:140-142 | the filter keeps exactly the elements not excluded, does not grow the list and keeps it duplicate-free |
| Lists.IndexOf | packages/cli/src/commands/add.ts:140 | the index found holds the element and no earlier index does |
| Lists.DedupeOrder | packages/cli/src/commands/add.ts:140 | `[...new Set(xs)]` lists the elements in the order of their first occurrence in `xs` |
| Lists.WithoutAppend | packages/cli/src/commands/add.ts:140-142 | filtering a concatenation is concatenating the filtered parts |
| Lists.WithoutSingleton | packages/cli/src/commands/add.ts:140-142 | a one-element list is kept iff its element is not excluded |
| Lists.WithoutOrder | packages/cli/src/commands/add.ts:140-142 | on a duplicate-free list the filter keeps the relative order of the elements it keeps |
| Text.ContainsIffOccurs | packages/cli/src/commands/init.ts:202 | `includes` holds iff the pattern occurs at some index |
| Text.ReplaceFirstLeftmost | packages/cli/src/utils/transformer.ts:5 | `String.replace` with a string pattern replaces only its leftmost occurrence and keeps the rest verbatim |
| Text.ReplaceFirstAbsent | packages/cli/src/utils/transformer.ts:5 | without an occurrence `String.replace` returns its input |
| Text.ReplaceAllLeftmost | packages/cli/src/utils/transformer.ts:6 | a global replace rewrites the leftmost occurrence and resumes after it |
| Text.ReplaceAllAbsent | packages/cli/src/utils/transformer.ts:6 | a global replace without an occurrence returns its input |
| Text.ReplaceAllSelf | packages/cli/src/commands/init.ts:161 | replacing a pattern by itself changes nothing |
| Text.TrimStart | packages/cli/src/utils/package-manager.ts:32 | the result is the suffix after the longest leading run of white space |
| Text.TrimEnd | packages/cli/src/utils/package-manager.ts:32 | the result is the prefix before the longest trailing run of white space |
| Text.TrimSpaced | packages/cli/src/utils/package-manager.ts:32 | `a + " " + m + " " + b` is its own trim when `a` does not start and `b` does not end with white space |
| Text.TrimTrailingSpaces | packages/cli/src/utils/package-manager.ts:39 | trailing white space after a trimmed word is removed by trim |
| Text.AfterLastSlash | packages/cli/src/commands/add.ts:104 | the last path segment has no `/`, ends the path and follows a `/` when shorter |
| Text.StripTrailingSlashes | packages/cli/src/commands/add.ts:104 | trailing separators are dropped and nothing else |
| Config.LoadConfig | packages/cli/src/utils/config.ts:23-29 | loading fails with NotFound iff rds-ui.json is absent; a loaded record is what the file's text decodes to |
| Config.SaveConfig | packages/cli/src/utils/config.ts:31-33 | saving writes rds-ui.json under cwd, afterwards the config exists, and every other file is unchanged |
| Config.SaveThenLoad | packages/cli/src/utils/config.ts:23-33 | loading right after saving returns the saved record |
| Config.DecodeEncode | packages/cli/src/utils/config.ts:32 | the text written for a config decodes to that config |
| Config.ReadQuotedEscape | packages/cli/src/utils/config.ts:32 | an escaped string literal reads back as the original string |
| Packages.DetectPackageManager | packages/cli/src/utils/package-manager.ts:8-25 | pnpm iff pnpm-lock.yaml exists; yarn iff not and yarn.lock exists; bun iff neither and bun.lockb exists; npm otherwise |
| Packages.NpmLockIrrelevant | packages/cli/src/utils/package-manager.ts:19-24 | adding or removing package-lock.json never changes the detected manager |
| Packages.Verb | packages/cli/src/utils/package-manager.ts:30-40 | the verb starts with the manager's executable and a space, and has no white space at either end |
| Packages.DevFlag | packages/cli/src/utils/package-manager.ts:28 | the flag is empty iff `dev` is unset, and otherwise has no white space at either end |
| Packages.InstallCommandDoubleSpace | packages/cli/src/utils/package-manager.ts:27-40 | without `dev`, two spaces separate the verb from the first package |
| Packages.InstallCommandDev | packages/cli/src/utils/package-manager.ts:27-40 | with `dev`, the flag stands between single spaces after the verb |
| Packages.InstallCommandNoDeps | packages/cli/src/utils/package-manager.ts:27-40 | with no packages the command is the verb, followed by the flag only under `dev` |
| Packages.InstallDependencies | packages/cli/src/utils/package-manager.ts:43-69 | nothing runs iff the list is empty; otherwise the detected manager runs the built command, which succeeds iff that command line does not fail |
| Packages.InstallOutcome | packages/cli/src/utils/package-manager.ts:48-68 | an empty list succeeds without running anything; the call fails iff the list is non-empty and its command line fails |
| Transformer.LibImportRewritten | packages/cli/src/utils/transformer.ts:5-6 | the leftmost `@/lib/utils` becomes `alias/<libDir with its first srcDir/ removed>/utils`, and the rest is rewritten likewise |
| Transformer.ComponentImportRewritten | packages/cli/src/utils/transformer.ts:9-16 | the leftmost `@/components/ui` becomes the components alias when it is set, else `alias/<componentsDir with its first srcDir/ removed>` |
| Transformer.TransformWithoutImports | packages/cli/src/utils/transformer.ts:3-19 | content with neither import is returned unchanged, so the transform is idempotent on it |
| Transformer.RelativeToSrcOfPrefix | packages/cli/src/utils/transformer.ts:5 | a directory starting with `srcDir/` loses exactly that prefix |
| Transformer.RelativeToSrcNotPrefix | packages/cli/src/utils/transformer.ts:5 | the removed `srcDir/` need not be a prefix: its leftmost occurrence is dropped wherever it stands (`app/src/lib` becomes `app/lib`) |
| Transformer.StandardLayoutIsIdentity | packages/cli/src/utils/transformer.ts:3-19 | in the standard layout (alias `@`, no components alias, `lib` and `components/ui` directly below srcDir, whatever srcDir is) the transform is the identity on every input |
| Transformer.DefaultTransformIsIdentity | packages/cli/src/utils/transformer.ts:3-19 | with the default settings the transform is the identity on every input |
| Transformer.LibUtilSpecifierUntouched | packages/cli/src/utils/transformer.ts:6 | `'@/lib/util'` is never rewritten, under any settings |
| Transformer.LibRewriteFeedsComponentRewrite | packages/cli/src/utils/transformer.ts:6-15 | the lib rewrite runs first: with libDir at `<srcDir>/components/ui` and a components alias set, `@/lib/utils` is rewritten twice and ends up as `<componentsAlias>/utils` |
| Transformer.TransformNotIdempotent | packages/cli/src/utils/transformer.ts:3-19 | with a components directory below `<srcDir>/components/ui`, transforming twice differs from transforming once |
| Workspace.WriteFile | packages/cli/src/commands/add.ts:134 | a write creates or replaces exactly one path and changes nothing else |
| Workspace.Ask | packages/cli/src/commands/add.ts:110-116 | a confirm takes the next scripted answer, or is "no" once the script is exhausted; files and log are kept |
| Workspace.Emit | packages/cli/src/commands/add.ts:135 | a report appends one event and changes nothing else |
| Workspace.Project.Write | packages/cli/src/commands/add.ts:134 | the new state is the old one after WriteFile |
| Workspace.Project.Confirm | packages/cli/src/commands/add.ts:110-116 | the answer and the new state are those of Ask |
| Workspace.Project.Report | packages/cli/src/commands/add.ts:135 | the new state is the old one after Emit |
| AddCommand.MissingLibEvents | packages/cli/src/commands/add.ts:58-64 | a warning is reported for a requested lib key iff its `libDir/<name>.ts` is absent |
| AddCommand.NpmDeps | packages/cli/src/commands/add.ts:96 | a package is collected iff some processed component declares it |
| AddCommand.RegistryDeps | packages/cli/src/commands/add.ts:97 | a key is collected iff some processed component declares it as a registry dependency |
| AddCommand.PendingDeps | packages/cli/src/commands/add.ts:140-142 | exactly the declared registry dependencies that are not components of this call, without duplicates |
| AddCommand.PendingDepsOrder | packages/cli/src/commands/add.ts:140-142 | the pending dependencies are in the order of their first declaration in the collected registry dependencies |
| AddCommand.PendingBelow | packages/cli/src/commands/add.ts:161-166 | under a rank that decreases along registry dependencies other than self-dependencies, every nested `add` works on a key of smaller rank, so the recursion ends |
| AddCommand.InstallStep | packages/cli/src/commands/add.ts:169-173 | nothing happens for an empty list; otherwise exactly one install with the detected manager is reported, and files and answers are kept |
| AddCommand.CheckLibs | packages/cli/src/commands/add.ts:58-64 | the loop's new state is WarnMissingLibs of the old one |
| AddCommand.Validate | packages/cli/src/commands/add.ts:78-84 | the result holds iff every component key is in the registry |
| AddCommand.AddFile | packages/cli/src/commands/add.ts:103-136 | one iteration has FileStep's outcome and new state |
| AddCommand.AddFiles | packages/cli/src/commands/add.ts:103-136 | the file loop has MaterializeFiles' outcome and new state |
| AddCommand.AddComponents | packages/cli/src/commands/add.ts:91-137 | the component loop has MaterializeAll's outcome and new state, and collects NpmDeps and RegistryDeps |
| AddCommand.AddDependencies | packages/cli/src/commands/add.ts:160-166 | the loop of nested calls has AddEach's outcome and new state |
| AddCommand.Add | packages/cli/src/commands/add.ts:15-173 | a call has AddResult's outcome and new state |
| AddCommand.AddRequestedKeys | packages/cli/src/commands/add.ts:48-84 | after the registry is fetched, the call has AddRequested's outcome and new state |
| AddCommand.AddKnownKeys | packages/cli/src/commands/add.ts:86-173 | after validation, the call has AddKnown's outcome and new state |
| AddProperties.NoConfigExits | packages/cli/src/commands/add.ts:19-22 | without rds-ui.json the call exits with code 1 and changes nothing |
| AddProperties.WarnOnlyLog | packages/cli/src/commands/add.ts:58-64 | the lib presence check only appends missing-lib warnings |
| AddProperties.LibOnlyRequest | packages/cli/src/commands/add.ts:54-72 | a request of `lib/` keys only returns normally having written, asked and installed nothing, only reporting missing lib files |
| AddProperties.UnknownComponentExits | packages/cli/src/commands/add.ts:78-84 | an unknown component key exits with code 1 before anything is written, asked or installed |
| AddProperties.FileStepPolicy | packages/cli/src/commands/add.ts:107-124 | an absent destination is written; an existing one is written silently under `--overwrite`, kept under `--yes`, and otherwise written iff the user confirms |
| AddProperties.FileStepWrites | packages/cli/src/commands/add.ts:103-136 | a file step writes nothing, or writes the fetched and transformed file to `componentsDir/name/basename` |
| AddProperties.MaterializeFilesWrites | packages/cli/src/commands/add.ts:103-136 | the file loop deletes nothing, and every changed file is the destination of one of the component's files, holding its transformed content |
| AddProperties.OverwriteWritesInOrder | packages/cli/src/commands/add.ts:103-136 | under `--overwrite` with every file available, the files are written and reported in declared order without a prompt |
| AddProperties.FilesYes | packages/cli/src/commands/add.ts:108-123 | under `--yes` the file loop asks nothing, and without `--overwrite` keeps every existing file |
| AddProperties.ComponentsYes | packages/cli/src/commands/add.ts:91-137 | the same for the component loop |
| AddProperties.AddYes | packages/cli/src/commands/add.ts:15-173 | under `--yes` a whole call, nested calls included, consumes no confirm answer, and without `--overwrite` keeps every existing file |
| AddProperties.DependenciesNeverPrompt | packages/cli/src/commands/add.ts:161-166 | the nested calls run with `yes` forced and never consume an answer, whatever the outer options |
| AddProperties.InstalledDependencies | packages/cli/src/commands/add.ts:169-172 | the installed list is duplicate-free and holds exactly the dependencies of the components processed by this call |
| AddProperties.InstallIsLast | packages/cli/src/commands/add.ts:161-173 | a completed call with dependencies ends with their install, after all its nested calls |
| TsConfig.MergedPaths | packages/cli/src/commands/init.ts:238-249 | the keys are the union; every existing entry is kept; a new entry is added only for an absent key |
| TsConfig.MergePaths | packages/cli/src/commands/init.ts:238-249 | the copy-then-loop implementation computes MergedPaths |
| TsConfig.MergeIdempotent | packages/cli/src/commands/init.ts:242-248 | merging the same new paths twice equals merging once |
| TsConfig.MergeIntoUndefined | packages/cli/src/commands/init.ts:242 | merging into undefined paths gives the new paths |
| TsConfig.NewPaths | packages/cli/src/commands/init.ts:255-261 | the keys are `alias/*` and, with a components alias set, `componentsAlias/*`; `alias/*` maps to `./srcDir/*`, also when both aliases are empty, unless a set components alias equals the alias; a set components alias maps to `./componentsDir/*`, winning a clash |
| TsConfig.UpdatedReferenced | packages/cli/src/commands/init.ts:311-314 | the app config gets baseUrl `.` and merged paths, and every other field is kept |
| TsConfig.UpdatedRoot | packages/cli/src/commands/init.ts:323-325 | the root keeps a non-empty baseUrl, gets merged paths, and every other field is kept |
| TsConfig.UpdatesIdempotent | packages/cli/src/commands/init.ts:311-337 | repeating either update changes nothing, and neither changes `include` |
| TsConfig.RefConfigPath | packages/cli/src/commands/init.ts:297-298 | the referenced file is `cwd/path` and always ends with `.json` |
| TsConfig.UpdateReferences | packages/cli/src/commands/init.ts:296-320 | the loop over references keeps the set of files |
| TsConfig.UpdateReferencesEffect | packages/cli/src/commands/init.ts:296-320 | afterwards a file carries the update iff it is referenced and includes the sources; every other file is unchanged |
| TsConfig.UpdateReferencesFlag | packages/cli/src/commands/init.ts:294-320 | `appConfigUpdated` holds iff some reference names an existing config that includes the sources |
| TsConfig.UpdateReferencedConfigs | packages/cli/src/commands/init.ts:294-320 | the loop as written computes UpdateReferences |
| TsConfig.UpdateTsConfig | packages/cli/src/commands/init.ts:252-342 | a missing tsconfig.json is created with the default content; an existing root always gets the root update; without project references nothing else changes |
| TsConfig.ProjectReferencesEffect | packages/cli/src/commands/init.ts:286-332 | with project references, exactly the referenced app configs other than the root are updated, and the report says whether one was found |
| ViteConfig.Aliases | packages/cli/src/commands/init.ts:169-175 | the main alias comes first, the keys are distinct and are exactly the main alias and a set components alias, and each key maps to its last assignment: `./componentsDir` for the components alias, `./srcDir` otherwise |
| ViteConfig.Lines | packages/cli/src/commands/init.ts:178-180 | one `"key": path.resolve(__dirname, "val"),` line per entry, in order |
| ViteConfig.SkipSpaces | packages/cli/src/commands/init.ts:211 | `\s*` consumes the whole run of white space |
| ViteConfig.FirstMatch | packages/cli/src/commands/init.ts:211 | the leftmost index where `head\s*{` matches, or None when it matches nowhere |
| ViteConfig.InsertedWhenMatched | packages/cli/src/commands/init.ts:211 | when the pattern matches, the inserted text is in the result |
| ViteConfig.BraceInsertion | packages/cli/src/commands/init.ts:207-224 | when `head\s*{` matches, the result contains the matched text followed directly by the inserted text |
| ViteConfig.PlacedThroughPathImport | packages/cli/src/commands/init.ts:211-231 | the placement survives the later `path` import |
| ViteConfig.EditPlacement | packages/cli/src/commands/init.ts:207-231 | when the pattern of the chosen head matches (`alias:` when both `resolve:` and `alias:` occur, else `resolve:`, else `defineConfig(`), the edited config holds its leftmost match, white space and `{`, immediately followed by the chosen insertion |
| ViteConfig.WithPathImport | packages/cli/src/commands/init.ts:226-231 | the `import path` line is prepended iff neither quoting of it is present |
| ViteConfig.WithPathImportKeeps | packages/cli/src/commands/init.ts:226-231 | afterwards the file imports `path` and still contains everything it contained |
| ViteConfig.WithPathImportIdempotent | packages/cli/src/commands/init.ts:226-231 | prepending the import twice is the same as once |
| ViteConfig.UpdateViteConfig | packages/cli/src/commands/init.ts:165-235 | created iff absent; left alone iff it contains the quoted main alias; otherwise edited |
| ViteConfig.AliasLineQuotesKey | packages/cli/src/commands/init.ts:179 | every entry line names its key in quotes |
| ViteConfig.AliasLinesQuoteAlias | packages/cli/src/commands/init.ts:178-180 | the entry lines name the main alias in quotes |
| ViteConfig.InsertionTextQuotesAlias | packages/cli/src/commands/init.ts:207-224 | whatever the edit inserts names the main alias in quotes |
| ViteConfig.CreatedThenAlreadyConfigured | packages/cli/src/commands/init.ts:177-205 | a config that `init` created is left alone by the next run |
| ViteConfig.UpdatedThenAlreadyConfigured | packages/cli/src/commands/init.ts:202-231 | when the chosen pattern matches, the edited config is left alone by the next run |
| ViteConfig.UnmatchedOnlyImportsPath | packages/cli/src/commands/init.ts:207-231 | when the chosen pattern does not match, the update only prepends the `path` import |
| InitCommand.AliasTransformIdentity | packages/cli/src/commands/init.ts:160-162 | with alias `@` the transform is the identity |
| InitCommand.AliasImportRewritten | packages/cli/src/commands/init.ts:160-162 | the leftmost `@/` becomes `<alias>/` and the search resumes after it; text without `@/` is kept |
| InitCommand.InitDependencies | packages/cli/src/commands/init.ts:138-139 | the list always holds `reka-ui`, has no duplicates and holds exactly the utils and styles dependencies and `reka-ui` |
| InitCommand.InitDependenciesOrder | packages/cli/src/commands/init.ts:138-139 | the utils dependencies come first, and `reka-ui` is last when neither list names it |
| InitCommand.CopyStep | packages/cli/src/commands/init.ts:115-122 | a step crashes, changing nothing, iff the file cannot be fetched; otherwise it writes `dir/basename` and reports it |
| InitCommand.CopyAll | packages/cli/src/commands/init.ts:115-131 | a copy loop asks nothing and never exits with a code |
| InitCommand.CopyAllUntouched | packages/cli/src/commands/init.ts:115-131 | a copy loop leaves every file it does not copy to as it was |
| InitCommand.CopyAllContentAt | packages/cli/src/commands/init.ts:115-131 | after a completed loop each file's destination holds its content, unless a later file lands there |
| InitCommand.CopyAllCompletes | packages/cli/src/commands/init.ts:115-131 | a copy loop completes iff every file can be fetched |
| InitCommand.CopyPathNotConfig | packages/cli/src/commands/init.ts:119 | no copied file lands on rds-ui.json |
| InitCommand.CopyAllKeepsConfig | packages/cli/src/commands/init.ts:115-131 | a copy loop leaves rds-ui.json as it was |
| InitCommand.CopyAllKeys | packages/cli/src/commands/init.ts:115-131 | a copy loop only adds copy destinations |
| InitCommand.FinishInit | packages/cli/src/commands/init.ts:133-142 | rds-ui.json is saved and reported, then the dependency list is installed |
| InitCommand.InitFiles | packages/cli/src/commands/init.ts:114-146 | the file steps never consume an answer |
| InitCommand.ConfigSavedLast | packages/cli/src/commands/init.ts:114-135 | a run that stops in the copy loops leaves rds-ui.json as it was; a completed run leaves the chosen settings loadable |
| InitCommand.InitUtilsWritten | packages/cli/src/commands/init.ts:115-122 | after a completed run each utils file's `libDir/basename` holds its alias-transformed content, unless a later utils file or a style lands on the same path |
| InitCommand.InitStylesWritten | packages/cli/src/commands/init.ts:125-131 | after a completed run each style's `stylesDir/basename` holds its content verbatim, unless a later style lands on the same path |
| InitCommand.InitInstallsLast | packages/cli/src/commands/init.ts:137-142 | a completed run ends with an install that always runs |
| InitCommand.ViteStep | packages/cli/src/commands/init.ts:165-235 | the vite edit never consumes an answer, leaves vite.config.ts present and changes no other file |
| InitCommand.ViteStepKeepsConfig | packages/cli/src/commands/init.ts:165-235 | the vite edit leaves rds-ui.json as it was |
| InitCommand.TsStep | packages/cli/src/commands/init.ts:252-342 | the tsconfig edit changes only the JSON store and the log |
| InitCommand.InitGuards | packages/cli/src/commands/init.ts:19-47 | without package.json the run exits with 1 and changes nothing; an existing config is replaced only after a "yes", unless `--yes`, and a refusal exits with 0 leaving files, log and tsconfig store unchanged; `--yes` uses the default settings |
| InitCommand.InitWithNeverExits | packages/cli/src/commands/init.ts:98-146 | once the settings are known the run never exits with a code |
| InitCommand.CopyFiles | packages/cli/src/commands/init.ts:115-131 | the loop as written has CopyAll's outcome and new state |
| InitCommand.UpdateVite | packages/cli/src/commands/init.ts:165-235 | the step-by-step edit has ViteStep's new state |
| InitCommand.UpdateTs | packages/cli/src/commands/init.ts:252-342 | the in-place edits give TsStep's store and new state |
| InitCommand.WriteFiles | packages/cli/src/commands/init.ts:114-146 | the file steps have InitFiles' outcome and new state |
| InitCommand.Init | packages/cli/src/commands/init.ts:14-146 | a run has InitResult's outcome, new state and store |
| RadioKeyboard.HandleKeyDown | apps/storybook/src/lib/useRadioKeyboard.ts:55-108 | a move always targets an item of the group |
| RadioKeyboard.NotAnItemNoAction | apps/storybook/src/lib/useRadioKeyboard.ts:56-65 | outside a radiogroup or off its enabled items, nothing happens |
| RadioKeyboard.ToolbarEnterClicks | apps/storybook/src/lib/useRadioKeyboard.ts:78-82 | in a toolbar, Enter clicks the current item without moving |
| RadioKeyboard.ArrowKeysCoverAll | apps/storybook/src/lib/useRadioKeyboard.ts:67-75 | in both orientations, on-axis and off-axis keys together are exactly the four arrows |
| RadioKeyboard.OtherKeysPassThrough | apps/storybook/src/lib/useRadioKeyboard.ts:84-85 | Space and every non-arrow key do nothing, except Enter in a toolbar |
| RadioKeyboard.OrientationIrrelevant | apps/storybook/src/lib/useRadioKeyboard.ts:67-75 | the orientation never changes the action |
| RadioKeyboard.ArrowMovesWithWrap | apps/storybook/src/lib/useRadioKeyboard.ts:89-107 | ArrowUp/Left move to `(i-1) mod n`, ArrowDown/Right to `(i+1) mod n`; the item is checked iff not in a toolbar |
| RadioKeyboard.OmittedToolbarIsFalse | apps/storybook/src/lib/useRadioKeyboard.ts:42-45 | an omitted toolbar option behaves as `false` |

## Left out

- **Console output.** Colours, wording and informational messages are left out. The
  model keeps only the reported facts.
  - `add`: the usage lines (`add.ts:175-186`), "Fetching registry" and the per-component
    "Adding" banner.
  - `init`: the next steps (`init.ts:148-156`), "Detected package manager", "Created
    directories", the per-reference "Updated X.json" lines and "Dependencies installed".
- **Directories.** `fs.ensureDirSync` is left out: the file map has no directories.
- **Path handling.** `path.join` is modelled as joining with `/`, without
  normalisation of `..`, `.` or doubled separators.
- **JSON.** Other JSON text is not modelled:
  - the text of tsconfig files, their parse errors and key order;
  - input that `readJsonSync` accepts but the rds-ui.json codec does not.
  - tsconfig files are held parsed, in a store separate from the text files.
    `fs.existsSync` on them looks in that store.
  - a `compilerOptions` that is present but not an object is not modelled.
  - An `include` that is present but not an array reads as absent.
- **Object keys.** Prototype keys such as `constructor` are not modelled in
  `registry.components[comp]` or in `merged[key]`. Nor is the enumeration order of
  integer-like keys.
- **Replacement patterns.** The `$` patterns of `String.replace` replacement strings
  are not modelled. The aliases and directories are taken to hold no `$`.
- **Regular expressions.** `\s` in `/(alias:\s*\{)/` and its siblings is modelled by the
  white-space set of `trim`. That set is the same as JavaScript's `\s`.
- **Prompt cancellation.** A cancelled text or multi-select prompt yields `undefined`
  answers. This is not modelled: `init` takes the text answers as a complete
  `RdsConfig`, and `componentsAlias || ''` is folded into it.
- **The `silent` option of `installDependencies`.** It only changes console output and
  stdio.
- **Termination of `add` on a cyclic registry.** `AddCommand.Add` and `AddResult`
  require a rank on component keys that decreases along registry dependencies. A
  self-dependency is exempt: the source filters the call's own keys out
  (`add.ts:140-142`), so it does not recurse. Once a nested call, which always requests a
  single key, enters a cycle through two or more keys, the source recurses without end;
  it has no guard against that. The rank is required of the whole registry, so it also
  excludes inputs the source handles: cycles the request never reaches, and a request
  that names every key of a cycle itself (`add a b` with `a` and `b` depending on each
  other), where add.ts:140-142 filters both keys out and nothing recurses.
- AddYes: under `--yes` with no keys given, `add.ts:31-46` still shows the component
  multi-select. The model takes that selection as a fixed parameter, so the lemma speaks
  only of confirm answers, not of every prompt.
- InstallStep: the package manager's own changes are not modelled. These are
  `package.json`, `node_modules` and the lockfiles. The model keeps the files unchanged
  across an install. This does not affect detection of the package manager: a later
  `add` still finds the same lockfiles (`Packages.NpmLockIrrelevant` covers
  `package-lock.json`).
- CopyPathNotConfig: holds only because `PathJoin` does not normalise. Take libDir or
  stylesDir of `.` or empty, and a registry file whose basename is `rds-ui.json`. Then
  `path.join` lands on the config.
- CopyAllKeepsConfig: rests on CopyPathNotConfig. In the case above the source would
  overwrite rds-ui.json in the copy loop.
- InitUtilsWritten: rests on CopyPathNotConfig. With libDir `.` or empty and a utils file
  whose basename is `rds-ui.json`, the source's later `saveConfig` overwrites the copy.
- InitStylesWritten: rests on CopyPathNotConfig in the same way, for a style named
  `rds-ui.json` under a stylesDir of `.` or empty.
- ConfigSavedLast: its first half rests on CopyPathNotConfig in the same way. Its
  second half, that a completed run leaves the chosen settings loadable, does not: the
  config is saved after the copy loops.
- **The DOM in `useRadioKeyboard`.** The event target is reduced to its index among the
  enabled items of its group, or to its absence from them. `preventDefault`, `focus` and
  `click` are reduced to the returned action. A `Ref` option is read once, when the key
  is handled.
- **Fetching.** `fetchRegistry` and `fetchFile` perform network and file access, and
  are parameters of the run.
- **`registry.ts`.** Only the `RegistryIndex` shape is used. `registry.ts` is not part
  of this model.

## Notes

- **Skip messages.** A skipped file is reported by its file name only, not by its
  path.
- **`transformImports` is not idempotent** (`Transformer.TransformNotIdempotent`).
  Suppose the components directory lies below `src/components/ui`. Then a second run
  rewrites the first run's output again.
- **`'@/lib/util'`** (the import of the registry's label component) is not
  `@/lib/utils`, and the transform never rewrites it.
- **An `alias:` key whose value is not an object literal.** Take `alias: aliases` in a
  config that also has `resolve:`. It makes `updateViteConfig` report "Updated"
  although only the `path` import can change (`ViteConfig.UnmatchedOnlyImportsPath`).
- **A `references` entry that points to the root tsconfig.json.** Its update is replaced
  by the root update: the root is written last, from the value read before the loop
  (`TsConfig.ProjectReferencesEffect`).
- **`reka-ui` is always installed by `init`.** The dependency list is never empty, so
  the install always runs (`InitCommand.InitInstallsLast`).
