# pyci-check core in Dafny

pyci-check is a pre-commit quality gate for Python projects. It checks that every
source file parses and that every imported module can be resolved, and it
splices its own block into git hook scripts. This project models its core and
proves properties of the model:

- import extraction from a parsed syntax tree (the `ImportVisitor`), per file and over
  a file list;
- the module-name guard `MODULE_NAME_PATTERN`, as a hand-written recogniser;
- the project configuration read from `pyproject.toml`: the upward search for the
  file, the `src` list, the exclusion classification, and the configured venv;
- the two resolvers:
  - the static resolver, with `sys.path` as a class field it extends and restores,
    `find_spec` as an oracle, and the ordered file-system probe;
  - the execution resolver's decision logic: the guard, `PYTHONPATH`, the sandbox
    environment, the interpreter choice, and the mapping from a process outcome to an
    error;
- the coordinator `check_missing_modules`, which groups occurrences, skips built-ins,
  checks each module once and annotates the occurrences of failed modules in place;
- the syntax checker's file list (filters, the symlink walk, sorting) and its tally;
- the worker-count formula and the path-exclusion test;
- the git hook block editor and the `.py` filter of the git file lists;
- locale selection and translation look-up.

The outside world is always a parameter:
- the parser, the file system and `find_spec`;
- the child process and the git runs;
- the environment and the TOML loader.

Thread pools are sequential loops. A loop picks the next finished task
nondeterministically, and results are compared as multisets or maps.

Behaviour of the code worth noting:
- The static resolver does no name validation. Only the execution resolver applies the
  guard (`src/pyci_check/imports.py:362-461`, `487-488`).
- The manual probe looks for nested submodules only under the source directories, not
  under the project root (`src/pyci_check/imports.py:417-427` against `448-457`).
- Extraction concatenates each file's results; it does not merge them by module
  (`src/pyci_check/imports.py:296-299`).
- An error while resolving paths in the symlink walk counts as "no symlink"
  (`src/pyci_check/syntax.py:41-43`).
- A non-zero exit whose stderr is only white space yields an empty error text, which
  the coordinator treats as success (`src/pyci_check/imports.py:535-539`, `607`). The
  execution resolver and the coordinator carry an `asWritten` switch: with it set they
  follow this code, and `Coordinator.BlankStderrUnreportedAsWritten` shows such a module
  missing from the report; with it clear they use the corrected text (see Findings).

Modules, one per file:
- `Wrappers`, `Strings` and `Paths`: helpers. `Strings` holds Python's `str`
  operations over `seq<char>`. `Paths` holds segment-sequence paths and the upward
  configuration search.
- `Toml` and `ProjectConfig`: configuration.
- `ModuleNames`, `ImportRecords` and `ImportExtraction`: names and extraction.
- `StaticResolver`, `ExecResolver` and `Coordinator`: resolution.
- `CompletionOrder`: order independence of `as_completed`.
- `Syntax`, `Utils` (with its worked `ExclusionExamples`), `GitHook` and `I18n`.

## Model

| member | source | states |
|---|---|---|
| Utils.EffectiveCpuCount | src/pyci_check/utils.py:17 | an unknown or zero CPU count counts as one CPU; a known non-zero count is used as it is |
| Utils.CalculateOptimalWorkers | src/pyci_check/utils.py:7-19 | the pool size is in [1, 32], at most twice the CPUs, at most the number of tasks when there is one, exactly 1 for at most one task, and otherwise the smallest of twice the CPUs, 32 and the number of tasks |
| Utils.PoolSize | src/pyci_check/imports.py:589 | a non-zero requested size is used as given, a negative one included; otherwise between 1 and 32 and at most the task count |
| Utils.PoolRefusedIffNegative | src/pyci_check/imports.py:289-294 | the pool raises `ValueError` iff there is at least one task and the requested size is negative |
| Utils.PathPartsOfJoined | src/pyci_check/utils.py:56 | a path joined from separator-free segments with "/" or "\\" splits back into exactly those segments |
| Utils.ExcludedIffSegmentListed | src/pyci_check/utils.py:43-57 | a path is excluded iff one of its segments is in the set, compared as whole strings |
| ExclusionExamples.ExcludedWhenListed | src/pyci_check/utils.py:56-57 | a path whose segments include a default-excluded name is excluded |
| ExclusionExamples.KeptWhenUnlisted | src/pyci_check/utils.py:56-57 | a path none of whose segments is a default-excluded name is kept |
| ExclusionExamples.VenvExcluded | src/pyci_check/utils.py:22-57 | "/p/.venv/m.py" is excluded by the default set |
| ExclusionExamples.PycacheExcluded | src/pyci_check/utils.py:22-57 | "p/__pycache__/m.pyc" is excluded by the default set |
| ExclusionExamples.SourceNotExcluded | src/pyci_check/utils.py:22-57 | "/p/src/m.py" is not excluded |
| ExclusionExamples.WindowsSeparatorExcluded | src/pyci_check/utils.py:56 | backslashes separate segments too: "C:\\p\\node_modules\\m.py" is excluded |
| ExclusionExamples.EggInfoGlobIsLiteral | src/pyci_check/utils.py:38 | "*.egg-info" is a literal name, so "/p/a.egg-info/m.py" is not excluded |
| I18n.NormalizeLocale | src/pyci_check/i18n.py:72-81 | the locale is always zh_TW, zh_CN or en; zh_TW iff the key is "zh_tw"; zh_CN iff the key is "zh_cn" or "zh" |
| I18n.LocaleKeyIsFoldedHead | src/pyci_check/i18n.py:80 | the key (split on ".", lower-cased, "-" read as "_") is the first "."-part of the folded code |
| I18n.NormalizeIgnoresCaseAndDash | src/pyci_check/i18n.py:80-81 | codes equal up to ASCII case and "-" versus "_" select the same locale |
| I18n.NormalizeIgnoresSuffix | src/pyci_check/i18n.py:80-81 | everything from the first "." on is ignored |
| I18n.KeyOfDotless | src/pyci_check/i18n.py:80 | for a code without ".", the key is the folded code |
| I18n.NormalizeDashedTraditional | src/pyci_check/i18n.py:9-15 | "zh-TW" selects zh_TW |
| I18n.NormalizeLowerTraditional | src/pyci_check/i18n.py:9-15 | "zh_tw" selects zh_TW |
| I18n.NormalizeSimplifiedExamples | src/pyci_check/i18n.py:9-15 | "zh" and "zh-CN" select zh_CN |
| I18n.NormalizeEnglishExamples | src/pyci_check/i18n.py:9-15 | "en_US" selects en, and an unknown code such as "fr" falls back to en |
| I18n.UnlistedKeyEchoed | src/pyci_check/i18n.py:112-115 | a key found in none of the three tables is returned unchanged, whatever the locale |
| I18n.TranslationIgnoresCaseAndDash | src/pyci_check/i18n.py:80-115 | locale codes equal up to ASCII case and "-" versus "_" give the same translation of every key |
| I18n.LocaleFromConfig | src/pyci_check/i18n.py:51-69 | without a file, or with an unreadable one, the locale is en; any locale returned is supported |
| I18n.LocaleFromConfiguredLanguage | src/pyci_check/i18n.py:62-69 | a configured language is honoured (stripped, normalised) iff it is a non-empty string, else en |
| I18n.ConfiguredLanguageSelectsTable | src/pyci_check/i18n.py:62-93 | with a non-empty string language in the tool section, the zh_TW table is read iff its stripped, folded key is "zh_tw", the zh_CN table iff it is "zh_cn" or "zh", the English table otherwise |
| I18n.UnconfiguredReadsEnglish | src/pyci_check/i18n.py:53-92 | without a configuration file, or with one that cannot be loaded, translations come from the English table |
| I18n.FindPyprojectToml | src/pyci_check/i18n.py:18-39 | no working directory gives None; otherwise the loop returns the deepest ancestor-or-self holding pyproject.toml |
| I18n.GetLocale | src/pyci_check/i18n.py:42-69 | the locale decided from the file the upward search finds; en without a working directory |
| Paths.NearestHoldingIsDeepest | src/pyci_check/i18n.py:31-39 | the upward search finds nothing iff no ancestor-or-self holds the file, and otherwise finds the deepest one that does |
| Paths.ExistingUnder | src/pyci_check/imports.py:498-502 | a path is listed iff it exists and is one of the source directories joined to the project |
| Paths.ExistingUnderIndices | src/pyci_check/imports.py:498-502 | the list is the existing joined source directories in the order listed: entries come from strictly increasing indices and every index whose directory exists is taken, so repeats are kept |
| Paths.ExistingUnderAppend | src/pyci_check/imports.py:498-502 | listing more source directories appends their existing ones after the others |
| ModuleNames.ScanMeansSplit | src/pyci_check/imports.py:34 | the recogniser's two states agree with splitting the rest of the name on "." |
| ModuleNames.AcceptsIffDottedName | src/pyci_check/imports.py:34 | a name is accepted iff every "."-separated part is an identifier `[A-Za-z_][A-Za-z0-9_]*` |
| ModuleNames.ScannedChars | src/pyci_check/imports.py:34 | every character the recogniser steps over is an identifier character or "." |
| ModuleNames.AcceptedShape | src/pyci_check/imports.py:34 | an accepted name is non-empty, starts with a letter or "_", and holds only identifier characters and dots |
| ModuleNames.AcceptedNameIsInert | src/pyci_check/imports.py:34-50 | an accepted name holds no quote, backslash, newline, blank or ";" |
| ModuleNames.TrailingNewlinePassesAsWritten | src/pyci_check/imports.py:34 | the pattern as written, used with `match`, lets "os\n" through although it is not a dotted name |
| ModuleNames.AcceptsIdentifier | src/pyci_check/imports.py:34 | one identifier is accepted |
| ModuleNames.AcceptsQualified | src/pyci_check/imports.py:34 | two identifiers joined by one dot are accepted |
| ModuleNames.AcceptedExamples | src/pyci_check/imports.py:34 | "os", "collections.abc", "_private" and "test123" are accepted |
| ModuleNames.RejectsForeignChar | src/pyci_check/imports.py:34 | any character that is not an identifier character or "." rejects the name |
| ModuleNames.RejectsBadStart | src/pyci_check/imports.py:34 | a name must start with a letter or "_" |
| ModuleNames.RejectedExamples | src/pyci_check/imports.py:34 | "os; import sys", "../malicious", "123test", "my-module", "test module" and "__import__('os')" are rejected |
| ImportRecords.ImportInfo.constructor | src/pyci_check/imports.py:174-175 | a new occurrence record holds its entry and no error |
| ImportExtraction.FromEntries | src/pyci_check/imports.py:182-196 | a from-import yields one relative entry iff level > 0 (module `node.module or "."`, the level, the dotted statement); otherwise one absolute entry iff it names a module; nothing else |
| ImportExtraction.ExtractNodeWellFormed | src/pyci_check/imports.py:174-196 | every extracted entry names the file; absolute entries carry no level and an "import "/"from " statement; relative ones a level >= 1 and a statement opening with "from " and that many dots |
| ImportExtraction.ExtractNodesWellFormed | src/pyci_check/imports.py:174-196 | the same for a sequence of sibling nodes |
| ImportExtraction.ThenWellFormed | src/pyci_check/imports.py:171-172 | appending two well-formed collections keeps them well formed |
| ImportExtraction.ImportVisitor.constructor | src/pyci_check/imports.py:169-172 | a new visitor has empty lists and the given file |
| ImportExtraction.ImportVisitor.VisitImport | src/pyci_check/imports.py:177-180 | appends one absolute entry per alias, in alias order, with statement "import <name>"; relative list unchanged |
| ImportExtraction.ImportVisitor.VisitImportFrom | src/pyci_check/imports.py:182-196 | appends exactly the from-import's entries to the two lists |
| ImportExtraction.ImportVisitor.Visit | src/pyci_check/imports.py:166-196 | the lists grow by what the subtree yields in pre-order |
| ImportExtraction.ExtractNodesSnoc | src/pyci_check/imports.py:166-196 | visiting one more child appends that child's occurrences |
| ImportExtraction.ExtractImportsFromCode | src/pyci_check/imports.py:199-207 | a syntax error yields ([], []); any other parse exception escapes, and only then; otherwise the visitor's lists, all well formed |
| ImportExtraction.ProcessSingleFile | src/pyci_check/imports.py:236-250 | an unreadable file yields ([], []); the exception escapes iff the file is read and its parsing raises; otherwise the file's extraction |
| ImportExtraction.KeepsIffNotExcluded | src/pyci_check/imports.py:276-284 | the per-part `any` test agrees with the shared set-intersection exclusion test |
| ImportExtraction.KeptFiles | src/pyci_check/imports.py:274-284 | the glob results kept are exactly those whose basename and path parts are not ignored |
| ImportExtraction.SelectedFiles | src/pyci_check/imports.py:263-284 | a non-empty target list is used verbatim; otherwise the filtered glob with the default ignore set when none is given |
| ImportExtraction.ExtractFromAllFiles | src/pyci_check/imports.py:253-301 | the extraction fails iff there is a selected file and a negative `max_workers` (the pool refuses it), or some selected file's parsing raises; otherwise the gathered lists are, as multisets, all selected files' results; no files gives ([], []) |
| ImportExtraction.GatherFiles | src/pyci_check/imports.py:290-301 | over the selected files: `future.result()` re-raises iff some file raises; otherwise each file is gathered once, in any completion order |
| CompletionOrder.Submitted | src/pyci_check/imports.py:295 | tasks are submitted as 0 .. n-1 |
| CompletionOrder.GatheredAppend | src/pyci_check/imports.py:296-299 | gathering two runs of tasks concatenates their results |
| CompletionOrder.GatheredPermutation | src/pyci_check/imports.py:296-299 | any completion order gathers the same multiset of results |
| CompletionOrder.GatheredSnoc | src/pyci_check/imports.py:296-299 | one more finished task appends its results |
| Toml.ToolSection | src/pyci_check/imports.py:95-96 | the section's entries; empty when tool or the section is absent; an error exactly when one of them is present but not a table |
| ProjectConfig.FindPyprojectToml | src/pyci_check/imports.py:53-71 | the loop returns the deepest ancestor-or-self of the project directory holding pyproject.toml |
| ProjectConfig.MergedExcludes | src/pyci_check/imports.py:103-118 | defined iff each of the three values, a lone string wrapped, is a list of strings; then the union of their items |
| ProjectConfig.InOrderSorts | src/pyci_check/imports.py:124-132 | in whatever order the set is visited, the two lists hold one normalised entry per merged entry, each in the list the rule selects, and each normalised name as often as merged entries normalise to it |
| ProjectConfig.SortEntries | src/pyci_check/imports.py:124-132 | the classification loop visits every merged entry once and builds the lists of that visit order |
| ProjectConfig.ClassifyExcludes | src/pyci_check/imports.py:120-132 | every merged entry, trailing "/" stripped, lands in the file list iff its basename has "." and it does not start with "."; otherwise in the directory list; each name occurs as often as merged entries strip to it |
| ProjectConfig.GetRuffConfig | src/pyci_check/imports.py:74-134 | empty settings without a readable file; otherwise src (a lone string wrapped) and the classified exclusions, multiplicities included; an error when a section or an exclusion value has the wrong type |
| ProjectConfig.NoConfigMeansEmpty | src/pyci_check/imports.py:84-86 | no configuration file gives all-empty settings |
| ProjectConfig.ClassificationIsExclusive | src/pyci_check/imports.py:124-132 | a merged entry lands in exactly one of the two lists |
| ProjectConfig.ModuleFileIsFileEntry | src/pyci_check/imports.py:128-130 | "app.py" is a file exclusion |
| ProjectConfig.DotlessNameIsDirEntry | src/pyci_check/imports.py:128-132 | "build" is a directory exclusion |
| ProjectConfig.HiddenNameIsDirEntry | src/pyci_check/imports.py:129-132 | ".venv" is a directory exclusion although it holds a dot |
| ProjectConfig.TrailingSlashIsTrimmed | src/pyci_check/imports.py:126 | "build/" is classified as "build" |
| ProjectConfig.VenvFrom | src/pyci_check/imports.py:145-163 | no file gives no venv; any venv returned is a non-empty string |
| ProjectConfig.VenvOnlyFromNonEmptyString | src/pyci_check/imports.py:156-163 | the configured venv is used iff it is a non-empty string, and then verbatim |
| ProjectConfig.GetVenvFromPyproject | src/pyci_check/imports.py:137-163 | the venv decided from the file the upward search finds |
| StaticResolver.SrcCandidates | src/pyci_check/imports.py:432-459 | the candidates are exactly the module files under the source directories that exist |
| StaticResolver.ProbeSource | src/pyci_check/imports.py:438-459 | found iff the module file, its package, or for a dotted name the submodule file or package exists under the directory |
| StaticResolver.ProbeProject | src/pyci_check/imports.py:417-459 | found iff one of the probe's candidates exists: the root module file or package, then each existing source directory's |
| StaticResolver.ModuleSearchPath.constructor | src/pyci_check/imports.py:385 | the search path holds the given entries |
| StaticResolver.ModuleSearchPath.Extend | src/pyci_check/imports.py:389-396 | the entries become the project, the existing source directories last-listed first, then the old entries |
| StaticResolver.ModuleSearchPath.CheckStatic | src/pyci_check/imports.py:362-461 | the search path is restored on every path; the result is the finder's failure if it raised, none if it found the module or the probe hits, else module-not-found |
| StaticResolver.PrependStep | src/pyci_check/imports.py:390-393 | inserting an existing source directory at the front extends the reversed list |
| StaticResolver.SearchPathShape | src/pyci_check/imports.py:389-396 | the extended path is the project, the existing source directories in reverse, then the original |
| StaticResolver.SearchPathUnchanged | src/pyci_check/imports.py:389 | without a project or source directories the finder sees the original path |
| StaticResolver.StaticErrorKinds | src/pyci_check/imports.py:403-461 | the only errors are not-found for this name and finder failure, so the result is truthy iff it is an error |
| StaticResolver.RootModuleFileResolves | src/pyci_check/imports.py:423-427 | a module file in the project root resolves when the finder misses it |
| StaticResolver.SubmoduleUnderSourceResolves | src/pyci_check/imports.py:448-457 | `a.b` resolves from `a/b.py` under an existing source directory |
| StaticResolver.MissWithoutProjectIsNotFound | src/pyci_check/imports.py:414-461 | without a project a finder miss is module-not-found |
| StaticResolver.MissingSourceDirIgnored | src/pyci_check/imports.py:434-436 | nothing is probed under a source directory that does not exist |
| ExecResolver.FindPythonExecutable | src/pyci_check/imports.py:327-359 | without a venv the running interpreter; any other answer is one of the venv's three interpreter layouts, and one that exists |
| ExecResolver.StdInterpreterSecond | src/pyci_check/imports.py:348-351 | without uv's layout, an existing POSIX venv interpreter is chosen |
| ExecResolver.UvInterpreterPreferred | src/pyci_check/imports.py:342-346 | the uv `.venv/bin/python` wins when it exists |
| ExecResolver.WindowsInterpreterLast | src/pyci_check/imports.py:342-356 | the Windows interpreter is chosen iff neither POSIX layout exists |
| ExecResolver.FallsBackToRunningInterpreter | src/pyci_check/imports.py:358-359 | with no venv interpreter the running interpreter is used |
| ExecResolver.PythonPathEntries | src/pyci_check/imports.py:494-502 | no project gives no entries; otherwise the project then each source directory that is a directory, in order |
| ExecResolver.RenderAll | src/pyci_check/imports.py:500 | each entry rendered as its path string |
| ExecResolver.PythonPathSplits | src/pyci_check/imports.py:504-506 | the new PYTHONPATH splits back into the entries, then the inherited value's parts when it is non-empty |
| ExecResolver.SandboxEnv | src/pyci_check/imports.py:515-520 | keeps exactly the variables not starting with a sensitive prefix, plus the three overrides with their values |
| ExecResolver.SandboxHasNoSensitiveKey | src/pyci_check/imports.py:515-520 | the child's environment holds no sensitive variable |
| ExecResolver.SuffixedSecretPassedThrough | src/pyci_check/imports.py:515 | only prefixes are checked: GITHUB_TOKEN is passed through |
| ExecResolver.GuardedNameStaysQuoted | src/pyci_check/imports.py:523 | for a guarded name the quoted `__import__` argument of the script is exactly the name, with the closing quote after it |
| ExecResolver.BlankStderrIsFalsyAsWritten | src/pyci_check/imports.py:535-539 | as written, stderr "\n" on a failing exit gives the error "", which is falsy |
| ExecResolver.ExitError | src/pyci_check/imports.py:535-539 | the corrected error text is never empty |
| ExecResolver.BlankStderrResolvesAsWritten | src/pyci_check/imports.py:535-539 | for a guarded name whose child exits 1 with stderr "\n", the resolver as written answers the falsy error "", the corrected one a truthy error |
| ExecResolver.ExitErrorAgreesOnText | src/pyci_check/imports.py:537-538 | where stderr has text, the corrected and the as-written error agree |
| ExecResolver.ExecResolvesIffCleanExit | src/pyci_check/imports.py:486-548 | the module resolves iff its name passes the guard and the child exits 0; every error is truthy |
| ExecResolver.RejectedNameNeverRuns | src/pyci_check/imports.py:487-488 | a rejected name gives the invalid-name error whatever the process would do |
| ExecResolver.ChildIsSandboxed | src/pyci_check/imports.py:491-534 | the child runs in the project with the chosen interpreter and timeout, no sensitive variable, the overrides, and PYTHONPATH starting with the project |
| Coordinator.FailsIffError | src/pyci_check/imports.py:595-607 | with the static resolver, or the corrected execution resolver, a module fails iff it has an error |
| Coordinator.OccurrencesMembers | src/pyci_check/imports.py:579-583 | a module's group holds exactly its occurrences; none when no occurrence names it |
| Coordinator.GroupedSnoc | src/pyci_check/imports.py:580-583 | one more occurrence is appended to its module's group unless the module is built in |
| Coordinator.GroupByModule | src/pyci_check/imports.py:579-583 | the grouping loop builds the groups of the non-built-in modules, occurrences in input order |
| Coordinator.GroupedFacts | src/pyci_check/imports.py:579-583 | each group holds only its module's occurrences, and every non-built-in occurrence is in its group |
| Coordinator.RecordError | src/pyci_check/imports.py:609-610 | every occurrence of the group carries the error |
| Coordinator.CheckOne | src/pyci_check/imports.py:595-603 | the chosen resolver's answer; the search path is unchanged |
| Coordinator.RecordedMeans | src/pyci_check/imports.py:605-611 | each occurrence carries its module's error iff it was reported, else its earlier error |
| Coordinator.Report | src/pyci_check/imports.py:606-611 | a failed module joins the report with its occurrences annotated; others change nothing |
| Coordinator.Complete | src/pyci_check/imports.py:605-611 | one finished module: checked, then reported |
| Coordinator.ResolveAll | src/pyci_check/imports.py:597-611 | after the loop the report holds exactly the failed modules and the search path is unchanged |
| Coordinator.ResolveGroups | src/pyci_check/imports.py:597-611 | every module checked once; the failed modules reported; their occurrences carry the error, all others keep theirs |
| Coordinator.MissingStep | src/pyci_check/imports.py:607-611 | checking one more module adds it to the report iff its error is truthy |
| Coordinator.ReportedModules | src/pyci_check/imports.py:576-611 | a module is reported iff some occurrence names it, it is not built in (neither the interpreter's nor `__main__`, `__future__`, `__builtins__`) and its error is truthy; its entry is all its occurrences in input order |
| Coordinator.BlankStderrUnreportedAsWritten | src/pyci_check/imports.py:535-611 | a guarded module whose child exits 1 with stderr "\n" is left out of the report as written and reported with the corrected error text |
| Coordinator.CheckMissingModules | src/pyci_check/imports.py:551-613 | the result maps each failed non-built-in module to all its occurrences in input order, each carrying the error; other occurrences unchanged; search path unchanged; {} for no modules; the pool raises iff there is a module to check and a negative `max_workers` |
| Syntax.WalkFindsSymlink | src/pyci_check/syntax.py:28-40 | the walk reports a symlink iff an ancestor-or-self is a symlink and every path from it down to the file resolves and does not resolve to the base |
| Syntax.UnresolvableFileIsNotLinked | src/pyci_check/syntax.py:41-43 | a path whose resolution fails is reported as not linked |
| Syntax.HasSymlinkInPath | src/pyci_check/syntax.py:13-43 | the loop gives the walk's verdict, with any resolution error read as false |
| Syntax.LexLeTotal | src/pyci_check/syntax.py:73 | code-point order on strings is total |
| Syntax.LexLeTransitive | src/pyci_check/syntax.py:73 | code-point order is transitive |
| Syntax.LexLeAntisymmetric | src/pyci_check/syntax.py:73 | code-point order is antisymmetric |
| Syntax.LexLeReflexive | src/pyci_check/syntax.py:73 | code-point order is reflexive |
| Syntax.SortedPairwise | src/pyci_check/syntax.py:73 | in a sorted list each element is at most every later one |
| Syntax.InsertPermutes | src/pyci_check/syntax.py:73 | insertion adds exactly one element |
| Syntax.InsertSorted | src/pyci_check/syntax.py:73 | insertion keeps a list sorted |
| Syntax.SortPathsSpec | src/pyci_check/syntax.py:73 | `sorted` returns a permutation of its input, in ascending order |
| Syntax.SortPathsPermutes | src/pyci_check/syntax.py:73 | `sorted` returns a permutation of its input |
| Syntax.SortPathsSorted | src/pyci_check/syntax.py:73 | `sorted` returns an ascending list |
| Syntax.SortedUnique | src/pyci_check/syntax.py:73 | two sorted permutations of the same paths are equal |
| Syntax.KeptPaths | src/pyci_check/syntax.py:63-71 | the paths kept are exactly the globbed ones passing the three filters |
| Syntax.FindPythonFilesSpec | src/pyci_check/syntax.py:46-73 | the result is sorted and holds exactly the kept paths, each as often as globbed |
| Syntax.DefaultExclusionApplies | src/pyci_check/syntax.py:57-68 | without a list, a path in a default-excluded directory is never returned |
| Syntax.ExplicitListReplacesDefaults | src/pyci_check/syntax.py:57-68 | with an explicit exclusion list, an unignored, unlinked globbed file is returned iff none of its path parts is listed, the default set no longer applying |
| Syntax.IgnoredFilesNeverListed | src/pyci_check/syntax.py:59-67 | starlette_app.py and sanic_app.py are never returned |
| Syntax.PrefixIndex | src/pyci_check/syntax.py:93-101 | each kind of failure has one of the four prefixes |
| Syntax.CheckFileSyntaxClassifies | src/pyci_check/syntax.py:76-101 | (True, "") iff the file parses; otherwise the message starts with exactly one prefix, the failure's own |
| Syntax.TallyOne | src/pyci_check/syntax.py:129-140 | a finished task is either one success or one reported error |
| Syntax.CheckFilesParallel | src/pyci_check/syntax.py:104-143 | success + error counts equal the file count; the error count is the error list's length; the errors are, as a multiset, every file's; no files gives (0, 0, []) |
| GitHook.LineEnd | src/pyci_check/git_hook.py:146-150 | the index just past the first newline at or after the position, or the text's length when there is none |
| GitHook.BlockLayout | src/pyci_check/git_hook.py:153 | where the start marker, the content, the end marker and the newlines of a block sit |
| GitHook.LocateBlock | src/pyci_check/git_hook.py:137-150 | in text + block + rest, the first start marker opens the block, the first end marker after it closes it, and its line ends with the block |
| GitHook.ReplaceKeepsSurroundings | src/pyci_check/git_hook.py:135-154 | with the end marker searched after the start marker, updating replaces only the block: the text before the start marker and after the end marker's line are kept verbatim |
| GitHook.AppendAfterStrippedText | src/pyci_check/git_hook.py:155-158 | without a start marker the result is the old text, right-stripped, then "\n" and the block, so the stripped text is a prefix |
| GitHook.NewHookTextFacts | src/pyci_check/git_hook.py:132 | the new-hook text strips to the shebang and `set -e` and holds no start marker |
| GitHook.NewHookContent | src/pyci_check/git_hook.py:127-158 | a missing hook becomes "#!/usr/bin/env bash\nset -e" + "\n" + the block |
| GitHook.UnterminatedBlockRefused | src/pyci_check/git_hook.py:140-143 | with the end marker searched after the start marker, a start marker without an end marker after it refuses the update |
| GitHook.AddOrUpdateIdempotent | src/pyci_check/git_hook.py:111-171 | with the end marker searched after the start marker, updating the result again with the same content changes nothing |
| GitHook.FirstOccurrencePrefixFree | src/pyci_check/git_hook.py:137 | the text before the first occurrence of a marker holds no occurrence of it |
| GitHook.BackOver | src/pyci_check/git_hook.py:260-266 | the scan stops at or before the start, steps over blanks only, and stops after one blank line or at text |
| GitHook.ScanBackOverBlanks | src/pyci_check/git_hook.py:262-266 | the backward loop ends where the scan specification does |
| GitHook.RemovePyciCheckBlock | src/pyci_check/git_hook.py:223-282 | the removal's answer; something is removed iff the hook exists and has a start marker with an end marker after it |
| GitHook.BackOverLooksBack | src/pyci_check/git_hook.py:262-266 | the scan depends only on the text before its starting point |
| GitHook.RemoveCutsBlock | src/pyci_check/git_hook.py:260-268 | with the end marker searched after the start marker, the removed span runs from the scan's stop to the end of the end marker's line |
| GitHook.CutUndoesAppend | src/pyci_check/git_hook.py:254-268 | with the end marker searched after the start marker, cutting an appended block gives back the right-stripped text |
| GitHook.RemoveUndoesAppend | src/pyci_check/git_hook.py:223-282 | with the end marker searched after the start marker, removing an appended block leaves the right-stripped old text, deleted or written back |
| GitHook.InstallThenUninstall | src/pyci_check/git_hook.py:270-273 | removing the block from a hook it created deletes the file |
| GitHook.ShebangAndSetDeleted | src/pyci_check/git_hook.py:271-273 | a hook holding only the shebang and `set -e` is deleted |
| GitHook.EndBeforeStartAddsSecondBlock | src/pyci_check/git_hook.py:137-154 | as written, an end marker before the start marker makes the update insert a second block and keep the old start marker |
| GitHook.EndBeforeStartRemovalKeepsStart | src/pyci_check/git_hook.py:245-268 | as written, the removal then reports success yet the start marker remains |
| GitHook.EndBeforeStartRefused | src/pyci_check/git_hook.py:137-143 | searching for the end marker after the start marker, the same text is refused as malformed by both operations |
| GitHook.FindSkipsFree | src/pyci_check/git_hook.py:137-138 | when nothing occurs before an index, the first occurrence in the text is the first one from that index on |
| GitHook.EndSearchesAgree | src/pyci_check/git_hook.py:137-246 | when no end marker stands before the first start marker, searching for the end marker from the text's start finds the one after the start marker |
| GitHook.AsWrittenAgrees | src/pyci_check/git_hook.py:135-268 | when no end marker stands before the first start marker, the update and the removal as written equal the intended ones |
| GitHook.UnterminatedBlockRefusedAsWritten | src/pyci_check/git_hook.py:140-251 | as written, a start marker with no end marker anywhere refuses the update and reports the removal as malformed |
| GitHook.NoStrayEndLaidOut | src/pyci_check/git_hook.py:137-153 | a block laid out after text free of both markers is the first start marker, and no end marker precedes it |
| GitHook.PrefixHoldsNoEnd | src/pyci_check/git_hook.py:137 | without a stray end marker, the text before the first start marker holds no end marker |
| GitHook.UpdateLeavesNoStrayEnd | src/pyci_check/git_hook.py:135-158 | an update with content free of the end marker keeps every end marker at or after the first start marker |
| GitHook.ReplaceKeepsSurroundingsAsWritten | src/pyci_check/git_hook.py:135-154 | as written, updating replaces only the block when the text before it holds neither marker |
| GitHook.AddOrUpdateIdempotentAsWritten | src/pyci_check/git_hook.py:111-171 | as written, updating the result again changes nothing when the hook holds no stray end marker and the content no end marker |
| GitHook.NewHookTextNoEnd | src/pyci_check/git_hook.py:132 | the new-hook text holds no end marker |
| GitHook.RemoveCutsBlockAsWritten | src/pyci_check/git_hook.py:245-268 | as written, the removed span runs from the scan's stop to the end of the end marker's line when the text before the block holds neither marker |
| GitHook.RemoveUndoesAppendAsWritten | src/pyci_check/git_hook.py:135-282 | as written, removing a block appended to a hook free of both markers leaves the right-stripped old text, deleted or written back, and the as-written update equals the intended one |
| GitHook.InstallThenUninstallAsWritten | src/pyci_check/git_hook.py:127-273 | as written, removing the block from a hook the update created deletes the file |
| GitHook.PythonNames | src/pyci_check/git_hook.py:42 | keeps exactly the non-empty names ending in ".py", none added |
| GitHook.PythonFilesIn | src/pyci_check/git_hook.py:41-42 | every name listed ends in ".py" and holds no newline |
| GitHook.StagedPythonFiles | src/pyci_check/git_hook.py:32-44 | a run that raises (no git binary, undecodable output) raises out, and only then; a failing git run gives no files; otherwise exactly the non-empty ".py" lines of the stripped output |
| GitHook.ChangedPythonFiles | src/pyci_check/git_hook.py:47-68 | the first diff's files when it succeeds, else the fallback diff's; none when both fail; it raises iff the first run raises or it fails and the fallback raises |

## Left out

- Thread pools and `as_completed`: modelled as sequential loops choosing the next finished task nondeterministically. Results are fixed only as multisets (extraction, syntax errors) or maps (missing modules). Concurrent sharing of `sys.path` between static-resolver calls is not modelled: with several workers, one call can save a `sys.path` that another has already extended and then restore that copy, leaving the other's project entries behind, or a call can restore the path while another's `find_spec` is running without the project on it. "Search path unchanged" in the Model table holds for the sequential model only.
- Subprocesses: the child interpreter's run is an input datatype (return code and stderr, timeout, OSError, other exception); a git run is either finished (return code and stdout) or raised, for a missing `/usr/bin/git` or output that is not UTF-8. `subprocess.run` itself is not modelled.
- `get_dynamic_imports` runs arbitrary code through `runpy` and diffs `sys.modules`; it is not part of this model.
- Foreign library calls are oracles: `ast.parse` (a parse function to a syntax tree, a syntax error, or another exception), `find_spec`, `glob.glob` (the globbed list), `os.path.exists`/`isdir` (sets of paths), `Path.resolve`/`is_symlink`, and `tomllib.load` (a load result of parsed values).
- File reading and writing: the encoding fallback of `read_file_with_encoding` is a read function returning the text or nothing. The hook's `open`/`write`/`os.remove` and `chmod` are left to the caller, who receives the new text or the verdict. The OSError paths of the hook editor (`src/pyci_check/git_hook.py:169-171`, `280-282`) are not modelled.
- `lru_cache` memoisation of the configuration and locale look-ups: it caches only.
- `str.format` inside `t` and the translated message texts: errors are a tagged datatype rather than strings.
- Printing: the CLI (`src/pyci_check/cli.py`), `print_results`, the `main` functions, and the `install_hooks`/`uninstall_hooks` drivers with `find_git_directory` are not part of this model. So is the printed `hooks.malformed_markers` message.
- `safe_relpath`: a parameter function (`rel`) in the syntax tally.
- The locale tables `src/pyci_check/locales/*.py`: a parameter (`Tables`).
- Timing (`time.time`).
- Paths are sequences of segments with "/" as the only separator. `os.path.join` is concatenation. POSIX quirks of empty or slash-holding components, Windows drive letters and `ntpath` are not modelled, except in the string-level exclusion test, which does read "\\".
- Strings: `str.lower` is modelled for ASCII letters only. No non-ASCII character folds into a letter that matters for the five locale keys.
- ExecResolver.FindPythonExecutable: the venv is a path, and `os.path.exists` is a set of paths. The interpreter path is rendered POSIX-style.
- Syntax.CheckFilesParallel: the order of the error list is not fixed, only its multiset, because completion order is arbitrary.
- ImportExtraction.ExtractFromAllFiles: the order of the gathered lists is not fixed, only their multisets, for the same reason.
- ImportExtraction.ExtractImportsFromCode: the parse oracle folds every exception other than a syntax error (from `ast.parse` or from the visitor's recursion on a deeply nested tree) into one outcome, `ParseRaised`; which inputs raise is left to the oracle.
- GitHook.PythonFilesIn: states only what every listed name satisfies. StagedPythonFiles gives the exact membership.
- Syntax.HasSymlinkInPath: `Path(base_dir).resolve()` failing is read as "no symlink", like the source's `OSError`/`ValueError` handler. A `RuntimeError` from a resolution loop is not distinguished.
- ModuleNames.Accepts is the corrected guard (a full match), and the execution resolver uses it unless its `asWritten` switch is set. The pattern as written is kept as `MatchesAsWritten` (see Findings).
- ExecResolver.ExitError is the corrected error text. The text as written is kept as `ExitErrorAsWritten`, and the execution resolver uses it (with `MatchesAsWritten` as the guard) when its `asWritten` switch is set (see Findings).
- Coordinator.FailsIffError: states the iff only for the static resolver and the corrected execution resolver, because as written a blank stderr fails without an error (`Coordinator.BlankStderrUnreportedAsWritten`).
- GitHook.AddOrUpdateHookContent and GitHook.RemovePyciCheckBlock search for the end marker after the start marker. The search as written is kept as `AddOrUpdateAsWritten` and `RemovalAsWritten` (see Findings).
- GitHook.AddOrUpdateIdempotentAsWritten: proved only for hooks with no end marker before the first start marker, because as written such a hook gains a second block on every update (`GitHook.EndBeforeStartAddsSecondBlock`).

## Findings

| source | as written | input that shows it | evidently intended | confidence | as-written member | corrected member |
|---|---|---|---|---|---|---|
| src/pyci_check/imports.py:34 | `re.match` with a pattern ending in `$` also matches before one final newline | the module name "os\n" passes the guard | only dotted identifiers pass (a full match) | not executed | ModuleNames.TrailingNewlinePassesAsWritten | ModuleNames.AcceptsIffDottedName |
| src/pyci_check/imports.py:535-539 | a failing exit with only white space on stderr gives the error "" | an imported module raising an exception with an empty message writes "\n" and exits 1; the error is "", which `check_missing_modules` treats as success | a failing import is always reported, with the generic text when stderr holds nothing | not executed | Coordinator.BlankStderrUnreportedAsWritten | ExecResolver.ExitError |
| src/pyci_check/git_hook.py:137-154 | the end marker is searched from the start of the file, not after the start marker | a hook whose end-marker line comes before its start-marker line: the update inserts a second block and keeps the old start marker, and the removal reports success but leaves a start marker | the end marker that closes the block is the first one after the start marker; otherwise the block is malformed | not executed | GitHook.EndBeforeStartAddsSecondBlock | GitHook.EndBeforeStartRefused |
