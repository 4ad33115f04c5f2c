# Verified models of frtb-capital's tools and table core

This Dafny project models eight algorithmic parts of the repository and proves what they promise. Code that works
step by step is a method or a class here, proved against a specification function; the laws are lemmas about those
functions, over every input, every run or every reachable state.

| part | modules | main results |
|---|---|---|
| Session store | `Sessions`, `RecencyList`, `RecencySteps`, `RecencyRuns`, `Capacity`, `IdleTimeouts` | the class refines a recency list; capacity inclusion over whole traces |
| Column names | `NameTokens`, `NamingStyles`, `ArrowTable`, `ColumnMatcher`, `Onboarding` | the regular-expression tokeniser cuts exactly at word boundaries; aliases never collide; the indexed matcher equals the naive one and agrees with ingestion |
| Syntax trees | `SyntaxTrees`, `ScopeWalk`, `ParentMap` | the explicit stack is the pruned preorder; the climb is the path from the root |
| Worktree protocol | `Slugs`, `GitRepository`, `AgentWorktree` | invariants over every run; `ensure` is idempotent |
| Regulatory corpus | `CorpusLines`, `ManifestHeaders`, `RegulatoryCorpus`, `CorpusLint`, `CorpusFormat` | print/parse round trip; what is written is what is read; the linter and the exporter agree |
| Columnar reading | `ArrowData`, `ArrowDecoding`, `ArrowReading`, `NullDefaults` | vectorised decoding is row by row; reading commutes with normalising; exactly when no placeholder is left |
| Obligor netting | `ObligorNetting`, `NettingLaws`, `NettingLayers`, `NettingResults`, `NettingRecords` | the greedy allocation over seniority ranks is a maximum one, equal to the least cut, and independent of the order |
| Accounting and loops | `CodeDrift`, `DriftBaseline`, `Attribution`, `BusinessDates` | conservation, a ratchet over chains of reports, error bounds, exact calendars |

`Wrappers`, `Sequences`, `Sums`, `Text`, `StringOrder` and `OrderedDicts` hold what several parts share. Integers are unbounded
as in Python, Python's ordered dictionaries are sequences of items with unique keys, and exceptions are `Failure` results.

Where the code and its documentation disagree, the code is modelled, a lemma gives an input on which they differ, and
the exact condition under which they agree is proved:

- PascalCase and camelCase are documented to give the same tokens as snake_case (mapping.py:30-32). They do exactly when
  no two neighbouring words run together (`PascalCaseReparsesIff`, `CamelCaseReparsesIff`; the example for both is
  `SingleLettersRunTogether`).
- `ensure` is documented to use or create a compliant worktree (agent_worktree.py:360). When it reuses a registered
  one it looks neither at its branch nor, with `--path`, at its place (`EnsureIsCompliantIff`, with the examples
  `EnsureCanReuseDetached` and `EnsureCanReuseOutsideRoot`).
- A bundle's total is documented to be contributions plus residuals (contribution_bundle.py:24-26). Contributions that
  match alone are accepted too, so the invariant holds for every acceptable total exactly if the residuals add up to
  zero (`DocumentedIffNoResidual`, `AcceptedButNotDocumented`).
- Nulls are documented to be preserved as `None` (arrow_conversion.py:30). A null inside a numeric dictionary is not
  (`DecodedIffFaithful`, `NullInIntegerDictionary`).
- Null defaults are documented to be restored at the positions that were null (arrow_conversion.py:267, 277-278). A row
  that is null because its valid index points at a null entry keeps its placeholder (`RestoredNullsIff`,
  `NullDefaultsLeaveNoPlaceholderIff`, `PlaceholderCanStay`).
- An exported manifest parses back exactly if the component's name cannot be split into a line that looks like an id
  line (`ManifestRoundTripIff`, `ManifestNeedNotParseBack`); every name without a line break is safe
  (`OneLineNameIsSafe`).

Two laws that one would expect hold only under a condition, which is proved exact as well: a longer TTL is not always
safe for a session (`LongerTtlIsSafeIff`, `LongerTtlCanLoseASession`), and accepted bundles need not explain a grand
total within their number times its tolerance (`GrandTotalIsExplainedIff`, `MixedSignsNeedNotCancel`).

## Model

| member | source | states |
|---|---|---|
| `Sessions.SessionStore.constructor` | tools/onboarding_mapper/backend/sessions.py:42-45 | a new store is empty and stands for the empty run |
| `Sessions.SessionStore.Create` | tools/onboarding_mapper/backend/sessions.py:47-68 | the store becomes "drop expired, append the new session, keep the last max_sessions" of its recency list, and stays equal to the run of its whole history |
| `Sessions.SessionStore.Get` | tools/onboarding_mapper/backend/sessions.py:70-79 | answers exactly with the live session of that id, stamps it and moves it last, stamps no other session; a miss only drops expired ones |
| `Sessions.SessionStore.Delete` | tools/onboarding_mapper/backend/sessions.py:81-83 | removes that id and nothing else, present or not |
| `Sessions.SessionStore.Len` | tools/onboarding_mapper/backend/sessions.py:85-87 | the length of the recency list, never above max_sessions |
| `Sessions.SessionStore.EvictExpired` | tools/onboarding_mapper/backend/sessions.py:89-98 | popping the collected ids leaves exactly the sessions used since the cutoff |
| `Sessions.SessionStore.EvictOverflow` | tools/onboarding_mapper/backend/sessions.py:100-102 | the popping loop leaves exactly the last max_sessions entries |
| `Sessions.ExpiredIdsExact` | tools/onboarding_mapper/backend/sessions.py:92-96 | the collected ids are those of the entries older than the cutoff, all of them and no others |
| `RecencyRuns.RunReachable` | tools/onboarding_mapper/backend/sessions.py:33-102 | after every run on a monotone clock: at most max_sessions entries, distinct ids, order non-decreasing in last access |
| `RecencyRuns.ExpiredFormPrefix` | tools/onboarding_mapper/backend/sessions.py:89-98 | expired entries are a prefix, so what survives is a suffix |
| `RecencyRuns.CreateEvictsLeastRecentlyUsed` | tools/onboarding_mapper/backend/sessions.py:100-102 | an unexpired entry that a create pushes out was used no later than any that stays, and the store is then full |
| `RecencyRuns.CreateKeepsOwnSession` | tools/onboarding_mapper/backend/sessions.py:57-68 | a create keeps its own session exactly if the store may hold any |
| `RecencyRuns.GetIsFresh` | tools/onboarding_mapper/backend/sessions.py:70-79 | a get answers with an entry if and only if it is held and not idle past the TTL |
| `RecencyRuns.HeldIsLastCreated` | tools/onboarding_mapper/backend/sessions.py:47-83 | after every run, what is held under an id is the upload of the last create of that id, and it has not been deleted since |
| `Capacity.CapacityInclusion` | tools/onboarding_mapper/backend/sessions.py:47-102 | for the same trace, the smaller store's list is a subsequence of the larger one's with equal stamps, and the surplus never exceeds the capacity difference |
| `Capacity.MoreCapacityNeverLosesASession` | tools/onboarding_mapper/backend/sessions.py:70-79 | after any run, a get that succeeds with the smaller capacity gives the same entry with the larger |
| `IdleTimeouts.LongerTtlIsSafeIff` | tools/onboarding_mapper/backend/sessions.py:47-102 | of two stores of the same capacity, over all runs on a monotone clock, the one with the longer TTL finds whatever the other finds if and only if there is room for at most one session or the shorter TTL is negative |
| `IdleTimeouts.LongerTtlCanLoseASession` | tools/onboarding_mapper/backend/sessions.py:89-102 | an instance with room for two sessions: a TTL of 9 loses a session that a TTL of 5 keeps |
| `NameTokens.NameTokens` | tools/onboarding_mapper/backend/mapping.py:27-41 | the loop over chunks gives the tokens of the specification |
| `NameTokens.TokenMatchIs` | tools/onboarding_mapper/backend/mapping.py:24 | what the four alternatives match on a chunk of letters and digits is never empty, contains no word boundary, and ends at one or at the end |
| `NameTokens.TokensAreSegments` | tools/onboarding_mapper/backend/mapping.py:24-41 | splitting, scanning with backtracking and lower-casing equals cutting the name at every boundary between neighbouring characters |
| `NameTokens.TokensLoseNothing` | tools/onboarding_mapper/backend/mapping.py:27-47 | the joined tokens are the lower-cased letters and digits of the name in order, and each token is all letters or all digits |
| `Text.LettersAre` | tools/onboarding_mapper/backend/mapping.py:24 | the letters of the alphabet in either case, and how they correspond |
| `Text.NoOtherLetters` | tools/onboarding_mapper/backend/mapping.py:24 | no other character is a letter of either case |
| `Text.DigitsAre` | tools/onboarding_mapper/backend/mapping.py:24 | the ten digits |
| `NamingStyles.SeparatedNameParses` | tools/onboarding_mapper/backend/mapping.py:30-32 | words written in lower, upper or capitalised spelling and joined by any run of separators come back |
| `NamingStyles.SnakeCaseReparses` | tools/onboarding_mapper/backend/mapping.py:27-41 | tokenising the tokens joined by underscores gives the same tokens, for every name |
| `NamingStyles.PascalCaseReparsesIff` | tools/onboarding_mapper/backend/mapping.py:30-32 | a name in PascalCase gives back its words if and only if no two neighbours are both numbers or both single letters |
| `NamingStyles.CamelCaseReparsesIff` | tools/onboarding_mapper/backend/mapping.py:30-32 | the same for camelCase, where the first word runs only into a number after a number |
| `NamingStyles.SingleLettersRunTogether` | tools/onboarding_mapper/backend/mapping.py:30-32 | the words x, y, z do not come back from "xYZ", nor from "XYZ" |
| `ArrowTable.ValidateColumnSpecs` | packages/frtb-common/src/frtb_common/arrow_table.py:273-303 | accepts exactly the specs whose names and aliases are all different; otherwise the error names the first identifier, in order, that was used before, the spec it is in and a spec that used it |
| `ArrowTable.OneOwner` | packages/frtb-common/src/frtb_common/arrow_table.py:274 | with valid specs an identifier belongs to one spec, in one place |
| `ArrowTable.ResolveIs` | packages/frtb-common/src/frtb_common/arrow_table.py:306-335 | a resolution is the only candidate the table has, or none where it has none |
| `ArrowTable.RenameAliasColumns` | packages/frtb-common/src/frtb_common/arrow_table.py:527-543 | succeeds exactly if resolution is unambiguous and names are distinct or nothing is renamed; the loop then renames pointwise, keeping data and positions; otherwise the error is that of the first ambiguous spec, and the duplicate error if there is none |
| `ArrowTable.RenamingNeverCollides` | packages/frtb-common/src/frtb_common/arrow_table.py:527-543 | with valid specs and unambiguous resolution, the renamed table has distinct names if and only if the input had |
| `ArrowTable.ValidateArrowTable` | packages/frtb-common/src/frtb_common/arrow_table.py:492-524 | accepts exactly tables with distinct columns that meet every spec's presence and policies and the row id rules; an error is that of the first rule that is broken |
| `ArrowTable.AcceptedColumnIs` | packages/frtb-common/src/frtb_common/arrow_table.py:514-525 | what each policy admits in terms of valid rows, number of chunks and encoding, that only required columns must be there, and which breach is reported first |
| `ArrowTable.AcceptedRowIdIs` | packages/frtb-common/src/frtb_common/arrow_table.py:508-511 | a row id is accepted if and only if it names a column and, where it must be unique, all its rows are valid and different; the empty name never is |
| `ArrowTable.NormalizeArrowTable` | packages/frtb-common/src/frtb_common/arrow_table.py:227-239 | succeeds if and only if the incoming table meets a condition stated on it alone, and gives the pointwise renaming; otherwise the error is that of the first stage that fails: reused identifiers, ambiguous specs, duplicates after renaming, an empty row id name, then duplicate columns and the first rule broken by the renamed table |
| `ArrowTable.ColumnAfterRenaming` | packages/frtb-common/src/frtb_common/arrow_table.py:551-554 | after renaming, looking up a spec's own name gives the column the spec resolved to before |
| `ArrowTable.NormalizingIsIdempotent` | packages/frtb-common/src/frtb_common/arrow_table.py:189-239 | normalising again with the same specs succeeds and changes nothing |
| `ArrowTable.ValidIsPairwise` | packages/frtb-common/src/frtb_common/arrow_table.py:273-303 | specs are accepted if and only if no spec repeats, none repeats an identifier and no two share one |
| `ArrowTable.NormalizingIgnoresSpecOrder` | packages/frtb-common/src/frtb_common/arrow_table.py:189-239 | any reordering of the specs gives the same outcome and the same table |
| `ColumnMatcher.BuildIndexes` | tools/onboarding_mapper/backend/mapping.py:77-85 | each index maps a key to the first source column that has it, and misses no key |
| `ColumnMatcher.FindMatch` | tools/onboarding_mapper/backend/mapping.py:98-106 | the nested search with its breaks finds what the naive scan finds |
| `ColumnMatcher.SuggestColumnMapping` | tools/onboarding_mapper/backend/mapping.py:50-110 | the indexed greedy matcher equals the naive matching of each spec in turn |
| `ColumnMatcher.SameKeyIff` | tools/onboarding_mapper/backend/mapping.py:27-47 | two names have equal keys at a tier if and only if they are alike in that sense: equal, equal in lower case, equal letters and digits in lower case, or the same tokens |
| `ColumnMatcher.NoSourceUsedTwice` | tools/onboarding_mapper/backend/mapping.py:68 | no source column is matched with two specs, and every match is a source column |
| `ColumnMatcher.MatchIsStrongest` | tools/onboarding_mapper/backend/mapping.py:56-66 | said of names: a match is the first source that is alike to a candidate at its tier (the same; the same in lower case; the same letters and digits in lower case; the same tokens) and free, no candidate has such a source at a stronger tier nor an earlier one at its own; no match means none has at any tier |
| `ColumnMatcher.JustificationIsUnique` | tools/onboarding_mapper/backend/mapping.py:50-110 | tier, candidate and source of such a justification are unique, so the law above determines the matching |
| `Onboarding.ApplyColumnMapping` | tools/onboarding_mapper/backend/mapping.py:113-125 | succeeds exactly if some column is selected and every selected source occurs once, and projects in the order of the mapping; the error names the first source in that order that is missing or occurs twice, and which of the two |
| `Onboarding.ResolvedMatchIff` | tools/onboarding_mapper/backend/mapping.py:94-110 | a spec that resolves is matched with the same column if and only if no earlier spec has taken it |
| `Onboarding.ResolvedMatchWithoutRival` | tools/onboarding_mapper/backend/mapping.py:94-110 | a spec that resolves is matched with the same column if for no candidate of an earlier spec that column is the first that is alike at any tier |
| `Onboarding.EarlierSpecCanTakeResolvedColumn` | tools/onboarding_mapper/backend/mapping.py:94-110 | valid specs where an unresolved spec takes the column that a later one resolves to |
| `Onboarding.OnboardingAgreesWithIngestion` | tools/onboarding_mapper/backend/mapping.py:94-125 | on distinct columns where every spec resolves: the suggestion is the resolution, applying it succeeds, and gives the normalised table projected to the specs |
| `Onboarding.MapClientTable` | tools/onboarding_mapper/backend/mapping.py:50-125 | suggesting and applying, run one after the other, give that projection |
| `ArrowDecoding.PutWhere` | packages/frtb-common/src/frtb_common/arrow_conversion.py:549 | assignment through a mask puts each item at its selected position and changes nothing else |
| `ArrowDecoding.DictionaryArrayToObjectArray` | packages/frtb-common/src/frtb_common/arrow_conversion.py:532-551 | fill, look up and mask equals row by row look-up, with no lookup out of range even if a filled index points into an empty dictionary |
| `ArrowDecoding.IntegerArrayToObjectArray` | packages/frtb-common/src/frtb_common/arrow_conversion.py:519-529 | filling nulls with 0 and masking them out leaves every integer an integer and every null the null value |
| `ArrowDecoding.ObjectArrayFromArrowArray` | packages/frtb-common/src/frtb_common/arrow_conversion.py:454-473 | each chunk kind decodes to its row by row reading |
| `ArrowDecoding.ArrowObjectArray` | packages/frtb-common/src/frtb_common/arrow_conversion.py:29-48 | the chunks are decoded with their own dictionaries and concatenated in order |
| `ArrowDecoding.DecodedIffFaithful` | packages/frtb-common/src/frtb_common/arrow_conversion.py:29-48 | a decoded column is the meaning of its logical rows if and only if no chunk has a null dictionary entry where it matters |
| `ArrowDecoding.ChunkingIsInvisible` | packages/frtb-common/src/frtb_common/arrow_conversion.py:29-48 | columns with the same logical rows decode equally however they are chunked and encoded, if no chunk has a null dictionary entry where it matters |
| `ArrowDecoding.NullInIntegerDictionary` | packages/frtb-common/src/frtb_common/arrow_conversion.py:532-551 | two columns with the same rows that decode differently |
| `ArrowReading.ReadArrowColumns` | packages/frtb-common/src/frtb_common/arrow_conversion.py:258-305 | rejects exactly invalid specs at the start, naming the first identifier that was used before, and otherwise gives the outcome of the specification, error by error |
| `ArrowReading.DuplicatesAreNotRead` | packages/frtb-common/src/frtb_common/arrow_conversion.py:288-292 | a table that repeats a column name is rejected with that error |
| `ArrowReading.RestoreNullDefaults` | packages/frtb-common/src/frtb_common/arrow_conversion.py:389-416 | the loop over the defaults, with its skips and errors, gives the specified columns |
| `ArrowReading.RestoreColumnNullDefault` | packages/frtb-common/src/frtb_common/arrow_conversion.py:419-433 | null rows get the default, all others keep their value, and a length mismatch is an error |
| `ArrowReading.ReadingCommutesWithNormalizing` | packages/frtb-common/src/frtb_common/arrow_conversion.py:258-305 | if normalisation succeeds, reading the raw and the normalised table gives the same arrays or the same error |
| `NullDefaults.TypedRowsIff` | packages/frtb-common/src/frtb_common/arrow_conversion.py:365-386 | for types read as objects every row with a value is read as that value if and only if no chunk with a null in an integer dictionary has such a row; for the others always, cast where the type asks for it |
| `NullDefaults.WithoutDefault` | packages/frtb-common/src/frtb_common/arrow_conversion.py:258-386 | reading a column without a default: rows with a value are read as it under the same condition, and every row without one holds NaN for float and decimal, False for boolean, and None for the others, unless a valid index points at a null of a numeric dictionary, which gives NaN |
| `NullDefaults.ReadFailureMeans` | packages/frtb-common/src/frtb_common/arrow_conversion.py:335-386 | what each error says of the spec and its column: an unknown or unsupported type, a value that Arrow cannot cast, a missing or ambiguous column, or the policy that is broken |
| `ArrowReading.RestoreFieldsAre` | packages/frtb-common/src/frtb_common/arrow_conversion.py:389-416 | restoring never fails on arrays that were read from the table, and changes each field by its own default only |
| `NullDefaults.NullDefaultsLeaveNoPlaceholder` | packages/frtb-common/src/frtb_common/arrow_conversion.py:258-433 | reading with a default fails only where reading without fails, and restores it at exactly the invalid rows; then all null rows hold it if no valid index points at a null entry, and the other rows hold their own values if and only if they were read as such |
| `NullDefaults.NullDefaultsLeaveNoPlaceholderIff` | packages/frtb-common/src/frtb_common/arrow_conversion.py:258-433 | whatever the defaults are, every null row of a column holds its default and every other row its own value, if and only if no valid index points at a null entry and, for types read as objects, all chunks keep their values |
| `NullDefaults.RestoredNullsIff` | packages/frtb-common/src/frtb_common/arrow_conversion.py:419-433 | after restoring, the null rows hold the default, whatever it is, if and only if no valid index points at a null entry of its dictionary |
| `NullDefaults.PlaceholderCanStay` | packages/frtb-common/src/frtb_common/arrow_conversion.py:410-411 | a text column with one valid index that points at a null entry: its null row is read as None although there is a default |
| `ScopeWalk.WalkFunctionBody` | scripts/ci/docstring_inventory.py:394-401 | the explicit-stack walk terminates and yields the recursive preorder that does not enter nested scopes |
| `ScopeWalk.PreorderIsOwnScope` | scripts/ci/docstring_inventory.py:394-401 | it meets a node if and only if a path that passes through no nested scope leads to it |
| `ScopeWalk.HasMeaningfulReturn` | scripts/ci/docstring_inventory.py:383-391 | true if and only if the annotation is not None or a return of something else than None belongs to the function's own scope |
| `ScopeWalk.NoneAnnotations` | scripts/ci/docstring_inventory.py:404-412 | `None` in its three forms is no annotation that counts, everything else is |
| `ScopeWalk.ReturnsAndScopes` | scripts/ci/docstring_inventory.py:383-401 | `return` and `return None` return no value, `return x` does; functions, classes and lambdas are scopes and nothing else is |
| `ParentMap.BuildParentMap` | scripts/ci/quality_helpers.py:54-59 | the breadth-first loops record every child under its id, and only edges of the tree; for each id the parent recorded is the last, level by level, that has such a child |
| `ParentMap.ParentIsExact` | scripts/ci/quality_helpers.py:54-59 | a node with children gets exactly its parent in the tree |
| `ParentMap.ParentsAreExactIff` | scripts/ci/quality_helpers.py:54-59 | the map is exact for all nodes if and only if no node occurs below two parents, as the parser's shared leaves do |
| `ParentMap.SharedLeafHasOneParentOnly` | scripts/ci/quality_helpers.py:54-59 | a tree with two names that share their load context: every such map is wrong for one of them |
| `ParentMap.ChainExists` | scripts/ci/quality_helpers.py:62-72 | a path from the root leads to every node, through its parent |
| `ParentMap.ChainUnique` | scripts/ci/quality_helpers.py:62-72 | only one path from the root leads to a node with children |
| `ParentMap.QualifiedName` | scripts/ci/quality_helpers.py:62-72 | the climb terminates and gives the dotted class and function names on the path from the root, outermost first |
| `ParentMap.ScopeNamesExample` | scripts/ci/quality_helpers.py:62-72 | a function g in a lambda in a function f in a class A is named A.f.g |
| `Slugs.SlugifyIs` | scripts/agent_worktree.py:192-197 | a slug exists if and only if there is a letter or digit; it has only slug characters, no capitals, and starts and ends with a letter or digit |
| `Slugs.SlugOfWords` | scripts/agent_worktree.py:192-197 | for any words of slug characters, however capitalised, any separators between them and anything else around them: the slug is the lower-case words with one dash between neighbours |
| `Slugs.SlugifyIsIdempotent` | scripts/agent_worktree.py:192-197 | slugs are fixed points, without slash, and never "." or ".." |
| `Slugs.ResolveSteps` | scripts/agent_worktree.py:265 | resolving a path drops ".", lets ".." take off the last part if there is one, keeps all others, and leaves no dots |
| `GitRepository.OnlyInIsZero` | scripts/agent_worktree.py:229-235 | the ahead count is zero if and only if the one commit is an ancestor of the other |
| `AgentWorktree.GuardPassesIffCompliant` | scripts/agent_worktree.py:309-356 | the guard reports nothing if and only if the checkout is not the protected clone, lies at root/agent/name, and is on a branch with that agent as prefix |
| `AgentWorktree.GuardFailuresAre` | scripts/agent_worktree.py:309-341 | when each failure is reported, said of the checkout, and that each is reported once in a fixed order |
| `AgentWorktree.SyncMainIs` | scripts/agent_worktree.py:213-246 | succeeds exactly if a clean main can fast-forward and Git does not fail; then HEAD is the remote's main, only ancestors were added and nothing else changed; a failure changes at most the tracking branch |
| `AgentWorktree.SyncFailureMeans` | scripts/agent_worktree.py:213-246 | after the checks of the clone, each error says what it names: another branch, local changes, or exactly how many commits the remote's main lacks; otherwise a Git command failed |
| `AgentWorktree.MainCloneErrorMeans` | scripts/agent_worktree.py:90-97 | what each error about the protected clone says of the disk and the registered worktrees |
| `AgentWorktree.CreateOnlyAdds` | scripts/agent_worktree.py:249-298 | a run adds one compliant worktree outside the protected clone, on a branch that is not checked out elsewhere, or leaves the checkouts alone |
| `AgentWorktree.CreatedBranchStands` | scripts/agent_worktree.py:267-293 | after a successful run the new checkout is on the branch asked for: one that was there keeps its commit, one listed at the remote starts where it is tracked, any other at the tracked main; no other branch moves but main to the remote's main by the sync |
| `AgentWorktree.CreateSucceedsIff` | scripts/agent_worktree.py:249-298 | the exact condition for success: checks, sync, Git, a free path, and a branch that is there and checked out nowhere or can be started |
| `AgentWorktree.PlanWorktreeIff` | scripts/agent_worktree.py:249-274 | exactly which requests pass the checks, said of slugs, branch name, place and disk, and the path and branch they are for |
| `AgentWorktree.PlanFailureMeans` | scripts/agent_worktree.py:249-274 | each error of the checks says what it names of the request |
| `AgentWorktree.RunKeepsInvariant` | scripts/agent_worktree.py:213-413 | every run of the commands, between edits, commits and moves of the remote, keeps: distinct paths, no branch checked out twice, every created worktree compliant and outside the protected clone |
| `AgentWorktree.CreatedWorktreesPassGuard` | scripts/agent_worktree.py:309-356 | over every run: from the root of a worktree the tool created, and from every directory whose innermost checkout it is, the guard passes; none of them lies inside the protected clone |
| `AgentWorktree.RunGrowsMain` | scripts/agent_worktree.py:213-246 | over every run the local main only gains ancestors |
| `AgentWorktree.SlugsComputeSamePath` | scripts/agent_worktree.py:252-265 | slugs of slugs are the same, so create_worktree computes the path that ensure looked at |
| `AgentWorktree.EnsureCases` | scripts/agent_worktree.py:359-413 | a successful ensure reports the compliant checkout, reuses the worktree at its path without change, or does what create_worktree does with the slugs of agent and task |
| `AgentWorktree.EnsureIsIdempotent` | scripts/agent_worktree.py:359-413 | from the same non-compliant checkout the second run reuses the first run's worktree and changes nothing, whatever Git would do |
| `AgentWorktree.EnsureIsCompliantIff` | scripts/agent_worktree.py:359-413 | for all arguments, when `ensure` succeeds the worktree it answers with is compliant if and only if, before the call, the guard passes, or nothing is registered at its path, or what is registered there lies in place, is not the protected clone and is on a branch of the agent the place is for |
| `AgentWorktree.DefaultPathIsInPlace` | scripts/agent_worktree.py:385 | without `--path` the place always conforms: below the root at depth two, under the slug of the agent |
| `AgentWorktree.EnsureCanReuseDetached` | scripts/agent_worktree.py:388-394 | a repository whose worktree at the path is detached: it is reused and fails the guard |
| `AgentWorktree.EnsureCanReuseOutsideRoot` | scripts/agent_worktree.py:385-394 | with `--path`, a worktree on the agent's own branch outside the root: it is reused and fails the guard |
| `AgentWorktree.Machine.RunSyncMain` | scripts/agent_worktree.py:213-246 | the commands one by one change the repository as the specification says |
| `AgentWorktree.Machine.RunCreateWorktree` | scripts/agent_worktree.py:249-298 | the same for creating a worktree, with its three ways of adding |
| `AgentWorktree.Machine.RunEnsure` | scripts/agent_worktree.py:359-413 | the same for ensure |
| `CorpusLines.SplitUnlines` | tools/regulatory/export_package_sources.py:87 | lines joined by newlines and closed by one split back into the same lines |
| `CorpusLines.BreaksAre` | tools/regulatory/lint_regulatory_corpus.py:41 | the characters that end a line |
| `CorpusFormat.ScalarReadsBack` | tools/regulatory/lint_regulatory_corpus.py:27-28 | a value with white space, quotes and a comment around it is cleaned back to itself, if nothing of it can be taken for a quote, a comment or white space |
| `CorpusLines.QuotesAre` | tools/regulatory/lint_regulatory_corpus.py:28 | the two quote characters |
| `Text.SpacesAre` | tools/regulatory/lint_regulatory_corpus.py:28 | the characters that count as white space |
| `CorpusFormat.PlainIdReadsBackIff` | tools/regulatory/lint_regulatory_corpus.py:47-51 | an id written as it is on an id line is read back if and only if it holds no comment, not even right at its start, and has no quote or space at its ends |
| `CorpusFormat.FieldReadsBack` | tools/regulatory/lint_regulatory_corpus.py:31-37 | a field is read as the value spelled behind its colon, quotes and comment removed |
| `CorpusFormat.ItemIs` | tools/regulatory/lint_regulatory_corpus.py:113-116 | an item at any indentation is read as the scalar behind its dash |
| `CorpusFormat.RegisterReadsBack` | tools/regulatory/export_package_sources.py:15-32 | a register that is written out, however its ids are spelled, is read as its entries in order, with all their lines |
| `CorpusFormat.ListReadsBack` | tools/regulatory/export_package_sources.py:35-65 | the items below the key line are read as the values spelled on them, in order |
| `CorpusFormat.WrittenCorpusExports` | tools/regulatory/export_package_sources.py:68-87 | with register and crosswalk written out, a component can be exported if and only if every reference it lists is the id of an entry; the manifest then has all lines of such an entry for each reference once, in order |
| `CorpusFormat.LiteralCorpusExports` | tools/regulatory/export_package_sources.py:68-87 | a register with source A and a crosswalk that lists A: exportable, with its block |
| `CorpusFormat.KindOfLine` | tools/regulatory/lint_regulatory_corpus.py:95-122 | which lines are ignored, open a list, are items, or end a list, said of a line's indentation and text |
| `CorpusLines.SourceBlockList` | tools/regulatory/lint_regulatory_corpus.py:40-57 | the linter's state machine gives the blocks: an id line and everything up to the next |
| `CorpusLines.SourceBlockDict` | tools/regulatory/export_package_sources.py:15-32 | the exporter's gives the same blocks by id, a later one replacing an earlier |
| `CorpusLines.ListValuesAfterKey` | tools/regulatory/lint_regulatory_corpus.py:95-122 | the scan collects exactly the items for which the last key line's list has not been ended by a line of no deeper indentation |
| `CorpusLines.SourceRefs` | tools/regulatory/export_package_sources.py:35-65 | the exporter's scan is the de-duplication of the linter's, in order of first occurrence |
| `CorpusLines.DeduplicatedIs` | tools/regulatory/export_package_sources.py:56-59 | de-duplication gives distinct values and keeps every value |
| `CorpusLines.DeduplicatedFirst` | tools/regulatory/export_package_sources.py:56-59 | the first value comes first, followed by the de-duplicated rest without it, so first occurrences keep their order |
| `RegulatoryCorpus.RenderManifest` | tools/regulatory/export_package_sources.py:68-87 | succeeds if and only if the crosswalk is there and refers to known sources only; the text is header and referenced blocks; the error lists exactly the unknown references, in order |
| `RegulatoryCorpus.ManifestRoundTripIff` | tools/regulatory/export_package_sources.py:68-87 | parsing a printed manifest gives back exactly the referenced blocks, in order, line for line and with the same ids, if and only if no line of the component's name after the first looks like an id line |
| `RegulatoryCorpus.ManifestNeedNotParseBack` | tools/regulatory/export_package_sources.py:68-87 | a corpus and a component of two lines that can be exported and does not parse back |
| `ManifestHeaders.HeaderIsSafeIff` | tools/regulatory/export_package_sources.py:76-83 | the printed header, split again, has an id line if and only if a line of the component's name after the first is one |
| `ManifestHeaders.HeaderLinesAre` | tools/regulatory/export_package_sources.py:76-83 | the printed header, line by line |
| `ManifestHeaders.NameOfExample` | tools/regulatory/export_package_sources.py:78 | the name of the register of component x-y is that of X_Y |
| `RegulatoryCorpus.ManifestDictionary` | tools/regulatory/export_package_sources.py:15-32 | the dictionary parsed from it has the references as keys in order, each with its block |
| `ManifestHeaders.OneLineNameIsSafe` | tools/regulatory/export_package_sources.py:76-83 | every component name without a line break is safe |
| `CorpusLint.ScalarField` | tools/regulatory/lint_regulatory_corpus.py:31-37 | the value of the first line that gives the field, or none if that is empty or there is no such line |
| `CorpusLint.CollectSourceIds` | tools/regulatory/lint_regulatory_corpus.py:60-78 | returns the ids of the blocks and appends, block by block, the duplicate, status and field errors of each, and the emptiness error |
| `CorpusLint.CollectChallengerIds` | tools/regulatory/lint_regulatory_corpus.py:81-92 | the same for challengers, read line by line: one error for each id that repeats an earlier one, in order |
| `CorpusLint.IdLinesGiveBlockIds` | tools/regulatory/lint_regulatory_corpus.py:81-92 | the ids on the id lines are those of the blocks, in order |
| `CorpusLint.CheckReferences` | tools/regulatory/lint_regulatory_corpus.py:125-137 | appends the unknown references in order: for each crosswalk its sources and then its challengers, then the regimes |
| `CorpusLint.Lint` | tools/regulatory/lint_regulatory_corpus.py:140-156 | the errors are exactly the determined list, each as often and in the order in which it is found, and the exit code is 0 if and only if there are none |
| `CorpusLint.AllErrorsAreReported` | tools/regulatory/lint_regulatory_corpus.py:60-137 | an error is in that list if and only if the corpus gives reason for it, whatever the order in which it is read |
| `CorpusLint.NothingReportedIffClean` | tools/regulatory/lint_regulatory_corpus.py:60-137 | there is nothing to report if and only if registers and references are in order, said of the corpus itself |
| `CorpusLint.CleanLintMakesExporterTotal` | tools/regulatory/export_package_sources.py:68-74 | with no lint errors no crosswalk can make the exporter raise |
| `CorpusLint.NoLintErrorsMakeExporterTotal` | tools/regulatory/lint_regulatory_corpus.py:140-156 | the same said of the list that the linter prints: if it is empty, every crosswalk can be exported |
| `CorpusLint.ExportsAllIffNoUnknownSource` | tools/regulatory/lint_regulatory_corpus.py:125-129 | every crosswalk can be exported if and only if the linter has no unknown source reference to report in them |
| `CorpusLint.ExportIsCleanRegister` | tools/regulatory/lint_regulatory_corpus.py:60-78 | a manifest exported from a clean corpus is a clean register again, if and only if it refers to any source |
| `StringOrder.SortByIs` | scripts/ci/check_code_drift.py:519 | sorting by a string key gives an ordered permutation in which the elements of each key keep their order |
| `StringOrder.StableSortIsUnique` | scripts/ci/check_code_drift.py:519 | only one sequence is ordered and has the elements of each key as given, so the law above determines the sort |
| `StringOrder.LeqIs` | scripts/ci/check_code_drift.py:519 | keys are compared by the first character that differs, and a prefix comes first |
| `CodeDrift.DuplicateFunctionGroups` | scripts/ci/check_code_drift.py:506-527 | the groups are, in the order of their digests, all eligible records of each digest that at least two have, ordered by key and as collected where keys are equal; the instances they count are the eligible records minus the distinct digests among them |
| `CodeDrift.GroupsAreDetermined` | scripts/ci/check_code_drift.py:506-527 | that description fits one list of groups only, order of groups and of locations included |
| `CodeDrift.ByDigestCounts` | scripts/ci/check_code_drift.py:510-513 | grouping loses and repeats nothing: one list for each distinct digest, none empty, lengths adding up to the records |
| `CodeDrift.RecordExample` | scripts/ci/check_code_drift.py:82-84 | the key of a function is its path and its dotted name |
| `CodeDrift.GroupsIgnoreOrderIff` | scripts/ci/check_code_drift.py:506-527 | every order of collecting the records gives the same groups if and only if no two different eligible records have both the same key and the same digest |
| `DriftBaseline.BuildReport` | scripts/ci/check_code_drift.py:175-234 | total lines of code are the sum over the files and over the roles; oversized files and large functions are sorted by key, each with the value measured last; markers count once for each path, as found last, which is their sum if no file is listed twice; duplicates are those there are |
| `DriftBaseline.OversizedByDefault` | scripts/ci/check_code_drift.py:49-68 | by the tool's own thresholds test files are oversized above 800 lines, scripts above 500, all others above 600 |
| `DriftBaseline.LargeByDefault` | scripts/ci/check_code_drift.py:49-68 | by the same thresholds functions are large above 90 lines and eligible as duplicates from 8 lines on |
| `DriftBaseline.CompareToBaseline` | scripts/ci/check_code_drift.py:332-392 | the errors are exactly the determined list, in order; it is empty if and only if nothing has grown beyond its budget and no oversized file or large function is new; raises exactly on entries without lines, for the first of them |
| `DriftBaseline.DriftErrorsAreReported` | scripts/ci/check_code_drift.py:332-392 | an error is in that list if and only if its metric or entry has grown beyond its budget or is new |
| `DriftBaseline.MissingMetricIsZero` | scripts/ci/check_code_drift.py:607-617 | a metric that the baseline does not have counts as zero |
| `DriftBaseline.OwnBaselineIff` | scripts/ci/check_code_drift.py:395-406 | a report compared with its own baseline has no errors if and only if the budgets that apply are not negative |
| `DriftBaseline.DefaultsAcceptOwnBaseline` | scripts/ci/check_code_drift.py:49-68 | with the tool's own thresholds a freshly recorded baseline always passes |
| `DriftBaseline.RatchetBoundsGrowth` | scripts/ci/check_code_drift.py:332-406 | over any chain of reports, each accepted against the baseline of the one before: duplicates, large functions and markers never grow, no new entries appear, the rest grows by at most its budget for each step |
| `Attribution.ReconcileContributionSet` | packages/frtb-common/src/frtb_common/attribution.py:168-229 | fails exactly on amounts that are not finite or a negative tolerance, naming the first such amount in the order in which they are checked; otherwise reports the sums and is reconciled if and only if the contributions alone, or with the residuals, lie within tolerance of the total |
| `Attribution.NoContributionIsZero` | packages/frtb-common/src/frtb_common/attribution.py:197-210 | a record without a contribution adds nothing to the contributions and its residual to the residuals |
| `Attribution.ToleranceIsLeast` | packages/frtb-common/src/frtb_common/attribution.py:274-282 | the tolerance is the least amount that is neither below the relative tolerance nor below that share of the total |
| `Attribution.ToleranceGrows` | packages/frtb-common/src/frtb_common/attribution.py:274-282 | the tolerance is never negative and no smaller for a total that is larger in size |
| `Attribution.MakeBundle` | packages/frtb-common/src/frtb_common/contribution_bundle.py:38-53 | a bundle is accepted if and only if all amounts are finite and one of the two sums lies within tolerance of its total |
| `Attribution.DocumentedIffNoResidual` | packages/frtb-common/src/frtb_common/contribution_bundle.py:24-26 | the documented invariant holds for every total accepted for some records if and only if their residuals add up to zero |
| `Attribution.AcceptedButNotDocumented` | packages/frtb-common/src/frtb_common/contribution_bundle.py:24-26 | an accepted bundle that violates it |
| `Attribution.GrandTotalIsExplained` | packages/frtb-common/src/frtb_common/contribution_bundle.py:38-53 | for n accepted bundles with non-negative totals that choice explains the grand total within n times the grand total's tolerance |
| `Attribution.GrandTotalIsExplainedIff` | packages/frtb-common/src/frtb_common/contribution_bundle.py:38-53 | for any totals, all accepted bundles with these totals meet that bound if and only if the sum of max(abs(t), 1) is at most n times max(abs(grand total), 1) |
| `Attribution.ExplainedWithinWeight` | packages/frtb-common/src/frtb_common/contribution_bundle.py:38-53 | for totals of any sign, one choice for each bundle explains the grand total within the relative tolerance of the sum of the larger of each total's size and 1 |
| `Attribution.MixedSignsNeedNotCancel` | packages/frtb-common/src/frtb_common/contribution_bundle.py:38-53 | the totals 1000000 and -1000000 fail that condition, and two accepted bundles with them miss the bound |
| `BusinessDates.BusinessDatesEnding` | packages/frtb-ima/scripts/generate_fixture.py:876-885 | terminates; succeeds if and only if the count is positive and below the number of weekdays since the first date; gives exactly the last weekdays up to the end date, increasing, none skipped |
| `BusinessDates.CountThrough` | packages/frtb-ima/scripts/generate_fixture.py:876-885 | the weekdays up to a date are five for each whole week and the first five days of the rest |
| `ObligorNetting.NetGroup` | packages/frtb-drc/src/frtb_drc/netting.py:112-157 | the loops over mutable short states give the net records of the specification: what is left of each long layer, then what is left of each short layer |
| `ObligorNetting.ShortState.Consume` | packages/frtb-drc/src/frtb_drc/netting.py:262-275 | takes what is wanted as far as there is any, and the same share of the gross amount; nothing from a short that is used up |
| `ObligorNetting.OffsetLong` | packages/frtb-drc/src/frtb_drc/netting.py:159-199 | the loop with its skips and early exits offsets one long against the shorts in their order |
| `NettingLaws.OffsetFromLater` | packages/frtb-drc/src/frtb_drc/netting.py:172-192 | one long uses the most senior permitted shorts first: from every later rank on as much is left as the total allows |
| `NettingLaws.OffsetsByClass` | packages/frtb-drc/src/frtb_drc/netting.py:35-47 | a short offsets longs of its own class of seniority and of all classes senior to it, and no others |
| `NettingResults.NettingOffsetsLeastCut` | packages/frtb-drc/src/frtb_drc/netting.py:112-249 | what is offset is the minimum over all ranks of the longs below the rank plus the shorts from it on; the short records hold what is left |
| `NettingResults.NettingIsMaximal` | packages/frtb-drc/src/frtb_drc/netting.py:159-249 | no way of offsetting longs against shorts that are not senior to them offsets more in total, and one offsets as much |
| `NettingResults.NettingIgnoresOrder` | packages/frtb-drc/src/frtb_drc/netting.py:112-249 | for every rank, the net amounts of each direction below it are the same for every order of the exposures |
| `NettingResults.NettingKeepsSignedTotal` | packages/frtb-drc/src/frtb_drc/netting.py:159-249 | long records less short records are the positive longs less the positive shorts, and the signed total of the exposures if no amount is negative |
| `NettingResults.LeftSharesAreEqual` | packages/frtb-drc/src/frtb_drc/netting.py:262-275 | after all longs, the share left of each short is the same of its gross as of its scaled amount |
| `NettingRecords.LongRecordsAre` | packages/frtb-drc/src/frtb_drc/netting.py:159-213 | a seniority of longs has one record if more of it is there than the shorts lose to it, and none otherwise; the record shows the gross and scaled sums of all its longs, the gross and scaled amounts the shorts lose, their difference, and as items the longs followed by exactly the shorts that lose something |
| `NettingRecords.ShortRecordsAre` | packages/frtb-drc/src/frtb_drc/netting.py:216-249 | a seniority of shorts has one record if some of it is left after all longs, and none otherwise; it shows what is left, gross and scaled, and the shorts that have something left |
| `NettingRecords.FirstStage` | packages/frtb-drc/src/frtb_drc/netting.py:120-131 | before the first long every short has its own gross and scaled amounts, and each short is there once |
| `NettingRecords.LongRecordHasLayer` | packages/frtb-drc/src/frtb_drc/netting.py:159-213 | every long record is of a seniority that has longs |
| `NettingRecords.RecordsInOrder` | packages/frtb-drc/src/frtb_drc/netting.py:140-157 | long records come before short ones, each by rank |

## Left out

- Capital kernels other than the netting of one obligor (netting.py:112-275): sensitivities, risk weights, hedging ratios and the like are not part of this model. Demos, benchmarks, notebooks and plotting: formulas and timing.
- Netting: the exposures are those of one bucket and obligor (netting.py:88-96), validated; amounts are real numbers. Identifiers, scopes, citations and the audit list of rejected pairs are left out.
- FastAPI endpoints, DuckDB, file and Parquet loading, argument parsing and printing: input and output. Registry and maturity checks, path classification and wording linters: one branch for each claim.
- Sessions: clock readings and the fresh session id are parameters, table, source metadata and raw bytes of a session are one opaque value, and each critical section of the lock is one step.
- Text is compared without Unicode: case folding and white space are ASCII, line breaks are those of `str.splitlines`. Names are strings of any characters.
- Mapping documents in YAML and TOML (mapping.py:224-440): the printers leave words like `true` unquoted, so a round trip is not what the code gives.
- Arrow and NumPy are assumed to behave as `ArrowDecoding.ToNumpy` and `ArrowData.Validity` say: an integer array with nulls becomes floats with NaN, and the validity of a dictionary chunk is that of its indices. Casts to float and boolean are parameters of `ArrowReading`. Dates, timestamps and read-only flags of arrays are left out; the type checks of constructor arguments too.
- Normalised tables do not carry the rejected table, diagnostics, metadata and hashes, which normalisation only attaches.
- Columns that are read have chunks that meet Arrow's own invariants; row counts of the table as a whole are not modelled.
- Syntax trees have node identities and child lists in field order, and the parsing of source text is left out; the source looks parents up by object identity, here it is the identifier. A function node has children, since it always has its arguments node.
- Worktrees: Git is the state that the commands read and change; failures for reasons of its own (network, hooks, permissions) are flags of each command. Users switching branches or removing worktrees, symbolic links, and the commands `doctor`, `list`, `install-hooks` and the discovery of the policy paths are left out. A listing of a remote branch matches whole trailing components, as `git ls-remote` does.
- Corpus: the register files exist and can be read; a missing crosswalk is an error of the exporter. Files of a directory come in the order in which they are read, with distinct names.
- Error messages: errors carry the names and values concerned; their wording is left out.
- Drift reports: what is measured in a file's text (logical lines, markers, role, function digests) is given with the file; digests are opaque. The drift guard for changed files only (check_code_drift.py:237-329) is left out.
- Drift baselines: the baseline is a value as read from its file; conversions of JSON numbers and the file itself are left out.
- Amounts of contributions are real numbers; rounding in `math.fsum` and overflow to infinity are left out.
- Dates of fixtures are ordinals; the calendar itself is left out.
